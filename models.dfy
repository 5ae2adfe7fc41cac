/** The record shapes the backend passes around. */
module Models {
  import opened Wrappers

  /** A scavenger-hunt target: its canonical name and the synonyms that also count as a match. */
  datatype Item = Item(
    itemId: string,
    categoryId: string,
    name: string,
    sciName: string,
    habitat: string,
    diet: string,
    biology: string,
    funFact: string,
    synonyms: seq<string>)

  /** One item of one participant's session, with the evidence of its last verification, if any. */
  datatype Session = Session(
    sessionId: string,
    itemId: string,
    themeId: string,
    email: string,
    isCollected: bool,
    processedAt: string,
    allDetectedLabels: Option<seq<string>>,
    imageKey: Option<string>)
}
