/** The upload controller: accepts a photo for an item of a session and stores it in the bucket with the
    item's required terms attached as metadata. */
module Upload {
  import opened Wrappers
  import opened Models
  import Text
  import Json
  import Items

  /** The file multer hands over (its bytes are not modelled). */
  datatype UploadedFile = UploadedFile(originalname: string, mimetype: string, size: nat)

  /** The upload size limit in bytes. */
  const MaxFileSize: nat := 5 * 1024 * 1024

  /** The file filter: only `image/...` MIME types pass. */
  function FileFilter(mimetype: string): (accepted: bool)
    ensures accepted <==> |mimetype| >= 6 && mimetype[..6] == "image/"
  {
    Text.StartsWith(mimetype, "image/")
  }

  /** multer's verdict on a file before the controller sees it: the filter's error, the size limit's
      error, or None when the file is let through. */
  function Admit(file: UploadedFile): (error: Option<string>)
    ensures error.None? <==> FileFilter(file.mimetype) && file.size <= 5242880
  {
    if !FileFilter(file.mimetype) then Some("Only images are allowed")
    else if file.size > MaxFileSize then Some("File too large")
    else None
  }

  /** `originalname.split('.').pop()`: the text after the last '.', or the whole name when it has none. */
  function FileExtension(originalname: string): (ext: string)
    ensures '.' !in ext
    ensures '.' !in originalname ==> ext == originalname
    ensures '.' in originalname ==>
              |ext| < |originalname| &&
              originalname == originalname[..|originalname| - |ext| - 1] + "." + ext
  {
    var parts := Text.Split(originalname, '.');
    var ext := Text.Last(parts);
    if '.' in originalname then
      assert |parts| > 1;
      Text.JoinLast(parts, '.');
      var prefix := Text.Join(parts[..|parts| - 1], '.');
      assert originalname == prefix + "." + ext;
      assert originalname[..|originalname| - |ext| - 1] == prefix;
      ext
    else
      assert |parts| == 1;
      ext
  }

  /** The object key `sessionId/itemId/image.ext`. */
  function ObjectKey(sessionId: string, itemId: string, ext: string): string {
    sessionId + "/" + itemId + "/image." + ext
  }

  /** The required list sent with the photo: the item's synonyms, in order, with its name last. */
  function RequiredTerms(item: Item): (terms: seq<string>)
    ensures |terms| == |item.synonyms| + 1
    ensures terms[..|item.synonyms|] == item.synonyms && terms[|item.synonyms|] == item.name
  {
    item.synonyms + [item.name]
  }

  function ImageUrl(bucketName: string, key: string): string {
    "https://" + bucketName + ".s3.amazonaws.com/" + key
  }

  /** A stored object: its content type and the `requiredList` metadata text. */
  datatype StoredObject = StoredObject(contentType: string, requiredList: string)

  class Bucket {
    const name: string
    var objects: map<string, StoredObject>

    constructor (name: string, objects: map<string, StoredObject>)
      ensures this.name == name && this.objects == objects
    {
      this.name := name;
      this.objects := objects;
    }
  }

  datatype UploadBody = Message(message: string) | Uploaded(message: string, imageUrl: string)

  datatype UploadResponse = UploadResponse(status: int, body: UploadBody)

  const UploadFailed := UploadResponse(500, Message("Failed to upload image"))

  /** `uploadImage`. `itemRows` is the item table and `putOk` whether the bucket accepts the object. */
  method UploadImage(bucket: Bucket, itemRows: seq<Items.ItemRow>, sessionId: string, itemId: string,
                     file: Option<UploadedFile>, putOk: bool) returns (resp: UploadResponse)
    modifies bucket
    ensures resp.status != 404
    ensures file.None? ==> resp == UploadResponse(400, Message("No image file provided")) && bucket.objects == old(bucket.objects)
    ensures file.Some? && Items.GetItemById(itemRows, itemId).Err? ==> resp == UploadFailed && bucket.objects == old(bucket.objects)
    ensures file.Some? && Items.GetItemById(itemRows, itemId).Ok? ==>
              var item := Items.GetItemById(itemRows, itemId).value;
              var key := ObjectKey(sessionId, itemId, FileExtension(file.value.originalname));
              if putOk then
                bucket.objects == old(bucket.objects)[key := StoredObject(file.value.mimetype, Json.StringifyArray(RequiredTerms(item)))] &&
                resp == UploadResponse(200, Uploaded("Image uploaded successfully", ImageUrl(bucket.name, key)))
              else
                bucket.objects == old(bucket.objects) && resp == UploadFailed
  {
    if file.None? {
      return UploadResponse(400, Message("No image file provided"));
    }
    var found := Items.GetItemById(itemRows, itemId);
    if found.Err? {
      // getItemById throws on an unknown id, so the "not found" reply below it is never reached
      return UploadFailed;
    }
    var item := found.value;
    var fileExtension := FileExtension(file.value.originalname);
    var key := ObjectKey(sessionId, itemId, fileExtension);
    var requiredList := item.synonyms;
    requiredList := requiredList + [item.name];
    if !putOk {
      return UploadFailed;
    }
    bucket.objects := bucket.objects[key := StoredObject(file.value.mimetype, Json.StringifyArray(requiredList))];
    resp := UploadResponse(200, Uploaded("Image uploaded successfully", ImageUrl(bucket.name, key)));
  }
}
