/** The team service: teams, their members and their per-item collection rows. */
module Teams {
  import opened Wrappers
  import opened Models
  import Text
  import Items

  datatype Team = Team(teamId: string, name: string, code: string, isCompleted: bool, categoryId: string)

  /** A row of the team-user table: `userId` is a member of `teamId`. */
  datatype TeamUser = TeamUser(teamId: string, userId: string)

  /** A row of the team-item table: one item of one team and whether it is collected. */
  datatype TeamItem = TeamItem(teamId: string, itemId: string, isCollected: bool)

  datatype ItemList = ItemList(itemId: string, name: string, isCollected: bool)

  datatype TeamItemsResponse = TeamItemsResponse(items: seq<ItemList>, teamId: string)

  function CategoryNotFound(categoryId: string): string {
    "Category with ID " + categoryId + " not found"
  }

  function TeamNameTaken(name: string): string {
    "Team with name " + name + " already exists"
  }

  function TeamNotFound(teamId: string): string {
    "Team with ID " + teamId + " not found"
  }

  const TeamCompleted := "Team is already completed"
  const InvalidCode := "Invalid team code"
  const AlreadyMember := "User is already a member of this team"

  /** `getTeamById`: the team stored under that id, if any. */
  function TeamById(teams: seq<Team>, teamId: string): (r: Option<Team>)
    ensures r.Some? <==> exists t :: t in teams && t.teamId == teamId
    ensures r.Some? ==> r.value in teams && r.value.teamId == teamId
  {
    if teams == [] then None
    else if teams[0].teamId == teamId then Some(teams[0])
    else TeamById(teams[1..], teamId)
  }

  lemma {:induction false} TeamByIdSkips(a: seq<Team>, b: seq<Team>, teamId: string)
    requires forall t :: t in a ==> t.teamId != teamId
    ensures TeamById(a + b, teamId) == TeamById(b, teamId)
  {
    if a != [] {
      assert (a + b)[0] == a[0] && a[0] in a;
      assert (a + b)[1..] == a[1..] + b;
      TeamByIdSkips(a[1..], b, teamId);
    } else {
      assert a + b == b;
    }
  }

  /** `getTeamByName` as written: a scan with `Limit: 1` evaluates only the first row in scan order
      and the name filter is applied afterwards, so only that row can be found. */
  function TeamByNameAsWritten(teams: seq<Team>, name: string): (r: Option<Team>)
    ensures r.Some? <==> |teams| > 0 && teams[0].name == name
    ensures r.Some? ==> r.value == teams[0]
  {
    if |teams| > 0 && teams[0].name == name then Some(teams[0]) else None
  }

  /** A second team named "Bears" goes unnoticed when another team comes first in the scan. */
  lemma AsWrittenMissesExistingName()
    ensures var teams := [Team("t1", "Wolves", "K3Q9ZP", false, "c1"), Team("t2", "Bears", "M7X2LA", false, "c1")];
            TeamByNameAsWritten(teams, "Bears").None? && teams[1] in teams && teams[1].name == "Bears"
  {
  }

  /** The intended duplicate-name lookup: some team with that name, if there is one. */
  function TeamByName(teams: seq<Team>, name: string): (r: Option<Team>)
    ensures r.Some? <==> exists t :: t in teams && t.name == name
    ensures r.Some? ==> r.value in teams && r.value.name == name
    ensures TeamByNameAsWritten(teams, name).Some? ==> r == TeamByNameAsWritten(teams, name)
  {
    if teams == [] then None
    else if teams[0].name == name then Some(teams[0])
    else TeamByName(teams[1..], name)
  }

  /** No two teams of the table share a name. */
  predicate NamesUnique(teams: seq<Team>) {
    forall i, j :: 0 <= i < j < |teams| ==> teams[i].name != teams[j].name
  }

  /** With the Limit-1 lookup a new team can take a name that is already stored, as soon as the
      team holding it is not the first one scanned; the table then holds the name twice. */
  lemma AsWrittenAllowsDuplicate(teams: seq<Team>, team: Team)
    requires |teams| >= 2 && teams[0].name != team.name
    requires teams[1].name == team.name && teams[1].teamId != team.teamId
    ensures TeamByNameAsWritten(teams, team.name).None?
    ensures !NamesUnique(PutTeam(teams, team))
  {
    var after := PutTeam(teams, team);
    assert teams[1] in teams;
    assert teams[1] in after && team in after;
    SameNameBreaksUnique(after, teams[1], team);
  }

  /** Two different teams with one name in a table make its names not unique. */
  lemma SameNameBreaksUnique(teams: seq<Team>, x: Team, y: Team)
    requires x in teams && y in teams && x != y && x.name == y.name
    ensures !NamesUnique(teams)
  {
    var i :| 0 <= i < |teams| && teams[i] == x;
    var j :| 0 <= j < |teams| && teams[j] == y;
    if i < j {
      assert teams[i].name == teams[j].name;
    } else {
      assert teams[j].name == teams[i].name;
    }
  }

  /** With the corrected lookup, storing a team whose name is free keeps the names unique. */
  lemma NameCheckKeepsNamesUnique(teams: seq<Team>, team: Team)
    requires NamesUnique(teams)
    requires TeamByName(teams, team.name).None?
    ensures NamesUnique(PutTeam(teams, team))
  {
    var after := PutTeam(teams, team);
    var others := Text.Filter(teams, (t: Team) => t.teamId != team.teamId);
    assert after == others + [team];
    forall i, j | 0 <= i < j < |after|
      ensures after[i].name != after[j].name
    {
      assert after[i] in others;
      if j == |after| - 1 {
        assert after[i] in teams;
      } else {
        assert after[j] in others;
        Text.SubsequenceKeepsOrder(others, teams, i, j);
      }
    }
  }

  /** A put into the team table: the row with the team's id, if any, is replaced. */
  function PutTeam(teams: seq<Team>, team: Team): (r: seq<Team>)
    ensures forall t :: t in r <==> t == team || (t in teams && t.teamId != team.teamId)
    ensures TeamById(r, team.teamId) == Some(team)
  {
    var others := Text.Filter(teams, (t: Team) => t.teamId != team.teamId);
    TeamByIdSkips(others, [team], team.teamId);
    others + [team]
  }

  /** A put into the team-item table: the row with the same (teamId, itemId), if any, is replaced. */
  function PutTeamItem(rows: seq<TeamItem>, row: TeamItem): (r: seq<TeamItem>)
    ensures forall x :: x in r <==> x == row || (x in rows && !(x.teamId == row.teamId && x.itemId == row.itemId))
  {
    Text.Filter(rows, (x: TeamItem) => !(x.teamId == row.teamId && x.itemId == row.itemId)) + [row]
  }

  /** The team-item table after `createTeamItems` saw `items`: one uncollected row per item with a
      non-empty id; items without an id, and items whose put failed, are skipped. */
  function WriteTeamItems(rows: seq<TeamItem>, teamId: string, items: seq<Item>, failedPuts: set<string>): seq<TeamItem> {
    if items == [] then rows
    else
      var prev := WriteTeamItems(rows, teamId, items[..|items| - 1], failedPuts);
      var itemId := items[|items| - 1].itemId;
      if itemId == "" || itemId in failedPuts then prev
      else PutTeamItem(prev, TeamItem(teamId, itemId, false))
  }

  /** What `createTeamItems` leaves behind: every written row is an uncollected row of this team for
      an item with an id whose put succeeded, every such item has its row, and other teams' rows stay. */
  lemma {:induction false} WrittenTeamItems(rows: seq<TeamItem>, teamId: string, items: seq<Item>, failedPuts: set<string>)
    ensures var out := WriteTeamItems(rows, teamId, items, failedPuts);
            (forall x :: x in out ==>
               x in rows ||
               (x.teamId == teamId && !x.isCollected && x.itemId != "" && x.itemId !in failedPuts &&
                exists it :: it in items && it.itemId == x.itemId)) &&
            (forall it :: it in items && it.itemId != "" && it.itemId !in failedPuts ==> TeamItem(teamId, it.itemId, false) in out) &&
            (forall x :: x in rows && x.teamId != teamId ==> x in out)
  {
    if items != [] {
      var init := items[..|items| - 1];
      var last := items[|items| - 1];
      WrittenTeamItems(rows, teamId, init, failedPuts);
      assert items == init + [last];
      assert forall it :: it in init ==> it in items;
    }
  }

  /** The order of checks `addUserToTeam` applies; the first failing one decides the error. */
  function JoinDecision(teams: seq<Team>, members: set<TeamUser>, teamId: string, userId: string, code: string): (r: Result<TeamUser>)
    ensures r.Ok? <==> (var t := TeamById(teams, teamId);
                         t.Some? && !t.value.isCompleted && t.value.code == code && TeamUser(teamId, userId) !in members)
    ensures r.Ok? ==> r.value == TeamUser(teamId, userId)
    ensures TeamById(teams, teamId).None? ==> r == Err(TeamNotFound(teamId))
    ensures TeamById(teams, teamId).Some? && TeamById(teams, teamId).value.isCompleted ==> r == Err(TeamCompleted)
    ensures (var t := TeamById(teams, teamId);
             t.Some? && !t.value.isCompleted && t.value.code != code) ==> r == Err(InvalidCode)
    ensures (var t := TeamById(teams, teamId);
             t.Some? && !t.value.isCompleted && t.value.code == code && TeamUser(teamId, userId) in members) ==>
              r == Err(AlreadyMember)
  {
    match TeamById(teams, teamId)
    case None => Err(TeamNotFound(teamId))
    case Some(team) =>
      if team.isCompleted then Err(TeamCompleted)
      else if team.code != code then Err(InvalidCode)
      else if TeamUser(teamId, userId) in members then Err(AlreadyMember)
      else Ok(TeamUser(teamId, userId))
  }

  /** The rows of one team in the team-item table, in table order. */
  function QueryTeamItems(rows: seq<TeamItem>, teamId: string): (r: seq<TeamItem>)
    ensures Text.IsSubsequence(r, rows)
    ensures forall x :: x in r <==> x in rows && x.teamId == teamId
    ensures forall x: TeamItem :: x.teamId == teamId ==> multiset(r)[x] == multiset(rows)[x]
  {
    Text.Filter(rows, (x: TeamItem) => x.teamId == teamId)
  }

  /** `items.find(i => i.itemId === itemId)`'s name, or "Unknown" when there is no such item. */
  function FindName(items: seq<Item>, itemId: string): (name: string)
    ensures (exists x :: x in items && x.itemId == itemId) ==> exists x :: x in items && x.itemId == itemId && name == x.name
    ensures (forall x :: x in items ==> x.itemId != itemId) ==> name == "Unknown"
  {
    if items == [] then "Unknown"
    else if items[0].itemId == itemId then items[0].name
    else FindName(items[1..], itemId)
  }

  /** The display name of an item of a team: the name stored for it, or "Unknown". */
  function NameFor(itemRows: seq<Items.ItemRow>, itemId: string): string {
    match Items.GetItemById(itemRows, itemId)
    case Ok(item) => item.name
    case Err(_) => "Unknown"
  }

  /** The team's rows in order, each named from `items`. */
  function NamedRows(rows: seq<TeamItem>, items: seq<Item>): (r: seq<ItemList>)
    ensures |r| == |rows|
    ensures forall k :: 0 <= k < |rows| ==> r[k] == ItemList(rows[k].itemId, FindName(items, rows[k].itemId), rows[k].isCollected)
  {
    seq(|rows|, k requires 0 <= k < |rows| => ItemList(rows[k].itemId, FindName(items, rows[k].itemId), rows[k].isCollected))
  }

  /** The item ids of the rows, in order. */
  function ItemIds(rows: seq<TeamItem>): (ids: seq<string>)
    ensures |ids| == |rows| && forall k :: 0 <= k < |rows| ==> ids[k] == rows[k].itemId
  {
    seq(|rows|, k requires 0 <= k < |rows| => rows[k].itemId)
  }

  /** `getTeamItems`: the team's rows in order, each with its item's name looked up. */
  function GetTeamItems(teamItems: seq<TeamItem>, itemRows: seq<Items.ItemRow>, teamId: string): (r: TeamItemsResponse)
    ensures r.teamId == teamId
    ensures var rows := QueryTeamItems(teamItems, teamId);
            |r.items| == |rows| &&
            forall k :: 0 <= k < |rows| ==> r.items[k].itemId == rows[k].itemId && r.items[k].isCollected == rows[k].isCollected
  {
    var rows := QueryTeamItems(teamItems, teamId);
    TeamItemsResponse(NamedRows(rows, Items.FoundItems(itemRows, ItemIds(rows))), teamId)
  }

  /** Looking a name up among the items found for `ids` gives the stored name of any of the ids. */
  lemma NameAmongFound(itemRows: seq<Items.ItemRow>, ids: seq<string>, id: string)
    requires id in ids
    ensures FindName(Items.FoundItems(itemRows, ids), id) == NameFor(itemRows, id)
  {
    var items := Items.FoundItems(itemRows, ids);
    match Items.GetItemById(itemRows, id)
    case Ok(item) =>
      assert item in items;
      var name := FindName(items, id);
      var x :| x in items && x.itemId == id && name == x.name;
      var k :| 0 <= k < |items| && items[k] == x;
      assert Items.GetItemById(itemRows, items[k].itemId) == Ok(items[k]);
    case Err(_) =>
      forall x | x in items
        ensures x.itemId != id
      {
        var k :| 0 <= k < |items| && items[k] == x;
        assert Items.GetItemById(itemRows, items[k].itemId) == Ok(items[k]);
      }
  }

  /** Each name `getTeamItems` reports is the name stored for that item, or "Unknown" when the lookup fails. */
  lemma TeamItemNames(teamItems: seq<TeamItem>, itemRows: seq<Items.ItemRow>, teamId: string)
    ensures var r := GetTeamItems(teamItems, itemRows, teamId);
            forall k :: 0 <= k < |r.items| ==> r.items[k].name == NameFor(itemRows, r.items[k].itemId)
  {
    var rows := QueryTeamItems(teamItems, teamId);
    var itemIds := ItemIds(rows);
    var r := GetTeamItems(teamItems, itemRows, teamId);
    forall k | 0 <= k < |r.items|
      ensures r.items[k].name == NameFor(itemRows, r.items[k].itemId)
    {
      assert itemIds[k] in itemIds;
      NameAmongFound(itemRows, itemIds, rows[k].itemId);
    }
  }

  /** The teams, in scan order, whose id is in `teamIds`. */
  function TeamsWithIds(teams: seq<Team>, teamIds: set<string>): (r: seq<Team>)
    ensures Text.IsSubsequence(r, teams)
    ensures forall t :: t in r <==> t in teams && t.teamId in teamIds
    ensures forall t: Team :: t.teamId in teamIds ==> multiset(r)[t] == multiset(teams)[t]
  {
    Text.Filter(teams, (t: Team) => t.teamId in teamIds)
  }

  /** `getTeamsByUserId`: the teams, in scan order, the user is a member of. */
  function GetTeamsByUserId(teams: seq<Team>, members: set<TeamUser>, userId: string): (r: seq<Team>)
    ensures Text.IsSubsequence(r, teams)
    ensures forall t :: t in r <==> t in teams && TeamUser(t.teamId, userId) in members
    ensures forall t: Team :: TeamUser(t.teamId, userId) in members ==> multiset(r)[t] == multiset(teams)[t]
  {
    var teamIds := set m | m in members && m.userId == userId :: m.teamId;
    assert forall t: Team :: TeamUser(t.teamId, userId) in members ==> t.teamId in teamIds;
    if teamIds == {} then [] else TeamsWithIds(teams, teamIds)
  }

  /** The three tables the service reads and writes. `teams` and `teamItems` are in scan order. */
  class TeamService {
    var teams: seq<Team>
    var members: set<TeamUser>
    var teamItems: seq<TeamItem>

    constructor (teams: seq<Team>, members: set<TeamUser>, teamItems: seq<TeamItem>)
      ensures this.teams == teams && this.members == members && this.teamItems == teamItems
    {
      this.teams := teams;
      this.members := members;
      this.teamItems := teamItems;
    }

    /** `addUserToTeam`: checks the team, its state, the code and the membership in that order,
        then adds exactly the one membership row. */
    method AddUserToTeam(teamId: string, userId: string, code: string) returns (r: Result<TeamUser>)
      modifies this`members
      ensures r == JoinDecision(teams, old(members), teamId, userId, code)
      ensures members == if r.Ok? then old(members) + {r.value} else old(members)
    {
      var team := TeamById(teams, teamId);
      if team.None? {
        return Err(TeamNotFound(teamId));
      } else if team.value.isCompleted {
        return Err(TeamCompleted);
      } else if team.value.code != code {
        return Err(InvalidCode);
      }
      if TeamUser(teamId, userId) in members {
        return Err(AlreadyMember);
      }
      var teamUser := TeamUser(teamId, userId);
      members := members + {teamUser};
      r := Ok(teamUser);
    }

    /** `createTeamItems`: one put per category item with an id; a failed put is logged and skipped. */
    method CreateTeamItems(teamId: string, categoryId: string, itemRows: seq<Items.ItemRow>, failedPuts: set<string>)
      modifies this`teamItems
      ensures teamItems == WriteTeamItems(old(teamItems), teamId, Items.ItemsByCategory(itemRows, categoryId), failedPuts)
    {
      var items := Items.ItemsByCategory(itemRows, categoryId);
      if |items| == 0 {
        return;
      }
      for k := 0 to |items|
        invariant teamItems == WriteTeamItems(old(teamItems), teamId, items[..k], failedPuts)
      {
        assert items[..k + 1][..k] == items[..k];
        var itemId := items[k].itemId;
        if itemId == "" {
          continue;
        }
        if itemId in failedPuts {
          continue;
        }
        teamItems := PutTeamItem(teamItems, TeamItem(teamId, itemId, false));
      }
      assert items[..|items|] == items;
    }

    /** `createTeam`: the category must exist, then the Limit-1 name lookup must come back empty; the team is stored
        uncompleted, its creator joins it with its own code, and its item rows are written.
        `newTeamId` and `code` are the generated uuid and join code. */
    method CreateTeam(name: string, userId: string, categoryId: string, categories: set<string>,
                      itemRows: seq<Items.ItemRow>, newTeamId: string, code: string, failedPuts: set<string>)
      returns (r: Result<Team>)
      modifies this
      ensures categoryId !in categories ==> r == Err(CategoryNotFound(categoryId)) && unchanged(this)
      ensures categoryId in categories && TeamByNameAsWritten(old(teams), name).Some? ==>
                r == Err(TeamNameTaken(name)) && unchanged(this)
      ensures categoryId in categories && TeamByNameAsWritten(old(teams), name).None? ==>
                var team := Team(newTeamId, name, code, false, categoryId);
                var join := JoinDecision(teams, old(members), newTeamId, userId, code);
                teams == PutTeam(old(teams), team) &&
                members == (if join.Ok? then old(members) + {join.value} else old(members)) &&
                (join.Ok? ==>
                   r == Ok(team) &&
                   teamItems == WriteTeamItems(old(teamItems), newTeamId, Items.ItemsByCategory(itemRows, categoryId), failedPuts)) &&
                (join.Err? ==> r == Err(join.message) && teamItems == old(teamItems))
    {
      if categoryId !in categories {
        return Err(CategoryNotFound(categoryId));
      }
      if TeamByNameAsWritten(teams, name).Some? {
        return Err(TeamNameTaken(name));
      }
      var team := Team(newTeamId, name, code, false, categoryId);
      teams := PutTeam(teams, team);
      var joined := AddUserToTeam(team.teamId, userId, code);
      if joined.Err? {
        return Err(joined.message);
      }
      CreateTeamItems(team.teamId, categoryId, itemRows, failedPuts);
      r := Ok(team);
    }
  }

  /** The creator of a new team always joins it: the team is found, open, and the code is its own. */
  lemma CreatorJoins(teams: seq<Team>, members: set<TeamUser>, team: Team, userId: string)
    requires !team.isCompleted
    requires TeamUser(team.teamId, userId) !in members
    ensures JoinDecision(PutTeam(teams, team), members, team.teamId, userId, team.code) == Ok(TeamUser(team.teamId, userId))
  {
  }
}
