/** The HTTP layer over the team service: how each outcome becomes a status code and a body. */
module TeamController {
  import opened Wrappers
  import Items
  import opened Teams

  datatype Body =
    | TeamCreated(message: string, team: Team)
    | MessageBody(message: string)
    | TeamList(teams: seq<Team>)
    | TeamItemsBody(response: TeamItemsResponse)
    | UserTeams(userId: string, teams: seq<Team>, count: nat)
    | UserTeamsFailed(message: string, error: string, userId: string, timestamp: string)

  datatype Response = Response(status: nat, body: Body)

  lemma CreateMessagesDiffer(categoryId: string, name: string)
    ensures CategoryNotFound(categoryId) != TeamNameTaken(name)
  {
    assert CategoryNotFound(categoryId)[0] == 'C';
    assert TeamNameTaken(name)[0] == 'T';
  }

  /** `createTeam`: 201 with the team; 404 for the missing category and 400 for the taken name,
      recognised by their exact messages; every other failure is a 500. */
  function CreateTeamResponse(name: string, categoryId: string, outcome: Result<Team>): (r: Response)
    ensures r.status == 201 <==> outcome.Ok?
    ensures outcome.Ok? ==> r.body == TeamCreated("Team created successfully", outcome.value)
    ensures r.status == 404 <==> outcome == Err(CategoryNotFound(categoryId))
    ensures r.status == 400 <==> outcome == Err(TeamNameTaken(name))
    ensures r.status in {201, 404, 400, 500}
    ensures r.status == 500 ==> r.body == MessageBody("Failed to create team")
    ensures r.status in {404, 400} ==> r.body == MessageBody(outcome.message)
  {
    CreateMessagesDiffer(categoryId, name);
    match outcome
    case Ok(team) => Response(201, TeamCreated("Team created successfully", team))
    case Err(message) =>
      if message == CategoryNotFound(categoryId) then Response(404, MessageBody(message))
      else if message == TeamNameTaken(name) then Response(400, MessageBody(message))
      else Response(500, MessageBody("Failed to create team"))
  }

  /** `listTeams`: every team of the scan, or 500 when the scan fails. */
  function ListTeamsResponse(scanned: Option<seq<Team>>): (r: Response)
    ensures r.status == 200 <==> scanned.Some?
    ensures scanned.Some? ==> r.body == TeamList(scanned.value)
    ensures scanned.None? ==> r == Response(500, MessageBody("Failed to list teams"))
  {
    match scanned
    case Some(teams) => Response(200, TeamList(teams))
    case None => Response(500, MessageBody("Failed to list teams"))
  }

  lemma JoinMessagesDiffer(teamId: string)
    ensures TeamNotFound(teamId) !in {AlreadyMember, TeamCompleted, InvalidCode}
  {
    assert TeamNotFound(teamId)[..5] == "Team ";
    assert TeamNotFound(teamId)[5] == 'w';
    assert TeamCompleted[5] == 'i';
    assert AlreadyMember[0] == 'U';
    assert InvalidCode[0] == 'I';
  }

  /** `joinTeam`: 200 on success, 404 for the missing team, 400 for the three refusals the service
      names, 500 for anything else. */
  function JoinTeamResponse(teamId: string, outcome: Result<TeamUser>): (r: Response)
    ensures r.status == 200 <==> outcome.Ok?
    ensures r.status == 404 <==> outcome == Err(TeamNotFound(teamId))
    ensures r.status == 400 <==> outcome.Err? && outcome.message in {AlreadyMember, TeamCompleted, InvalidCode}
    ensures r.status in {200, 404, 400, 500}
    ensures r.status == 500 ==> r.body == MessageBody("Failed to join team")
  {
    JoinMessagesDiffer(teamId);
    match outcome
    case Ok(_) => Response(200, MessageBody("User added to team successfully"))
    case Err(message) =>
      if message == TeamNotFound(teamId) then Response(404, MessageBody(message))
      else if message in {AlreadyMember, TeamCompleted, InvalidCode} then Response(400, MessageBody(message))
      else Response(500, MessageBody("Failed to join team"))
  }

  /** Every refusal of `addUserToTeam` reaches the client as a 404 or a 400, never as a 500:
      404 exactly when the team does not exist. */
  lemma JoinRefusalsAreClientErrors(teams: seq<Team>, members: set<TeamUser>, teamId: string, userId: string, code: string)
    ensures var r := JoinTeamResponse(teamId, JoinDecision(teams, members, teamId, userId, code));
            r.status != 500 &&
            (r.status == 404 <==> TeamById(teams, teamId).None?) &&
            (r.status == 400 <==>
               var t := TeamById(teams, teamId);
               t.Some? && (t.value.isCompleted || t.value.code != code || TeamUser(teamId, userId) in members))
  {
  }

  /** `getTeamItems`: 404 when the team does not exist; otherwise the team's items, or 500 when
      the query fails. */
  function GetTeamItemsResponse(teams: seq<Team>, teamItems: seq<TeamItem>, itemRows: seq<Items.ItemRow>,
                                teamId: string, queryOk: bool): (r: Response)
    ensures r.status == 404 <==> TeamById(teams, teamId).None?
    ensures r.status == 404 ==> r.body == MessageBody(TeamNotFound(teamId))
    ensures r.status == 200 <==> TeamById(teams, teamId).Some? && queryOk
    ensures r.status == 200 ==> r.body == TeamItemsBody(GetTeamItems(teamItems, itemRows, teamId))
    ensures r.status in {200, 404, 500}
  {
    match TeamById(teams, teamId)
    case None => Response(404, MessageBody(TeamNotFound(teamId)))
    case Some(team) =>
      if queryOk then Response(200, TeamItemsBody(GetTeamItems(teamItems, itemRows, team.teamId)))
      else Response(500, MessageBody("Failed to get team items"))
  }

  /** `getTeamsByUserId`: 200 with the user's teams and their count, even when there are none;
      500 with the failure's text when a scan fails. `timestamp` is the clock reading. */
  function GetTeamsByUserIdResponse(teams: seq<Team>, members: set<TeamUser>, userId: string,
                                    failure: Option<string>, timestamp: string): (r: Response)
    ensures r.status == 200 <==> failure.None?
    ensures r.status == 200 ==>
              r.body.UserTeams? && r.body.userId == userId && r.body.count == |r.body.teams| &&
              r.body.teams == GetTeamsByUserId(teams, members, userId) &&
              forall t :: t in r.body.teams <==> t in teams && TeamUser(t.teamId, userId) in members
    ensures r.status != 200 ==> r == Response(500, UserTeamsFailed("Failed to get teams by user ID", failure.value, userId, timestamp))
  {
    match failure
    case None =>
      var found := GetTeamsByUserId(teams, members, userId);
      Response(200, UserTeams(userId, found, |found|))
    case Some(error) => Response(500, UserTeamsFailed("Failed to get teams by user ID", error, userId, timestamp))
  }

  /** The `createTeam` route end to end: the service call followed by the status mapping. */
  method CreateTeamHandler(service: TeamService, name: string, userId: string, categoryId: string,
                           categories: set<string>, itemRows: seq<Items.ItemRow>,
                           newTeamId: string, code: string, failedPuts: set<string>)
    returns (resp: Response)
    modifies service
    ensures categoryId !in categories ==> resp.status == 404 && unchanged(service)
    ensures categoryId in categories && TeamByNameAsWritten(old(service.teams), name).Some? ==> resp.status == 400 && unchanged(service)
    ensures categoryId in categories && TeamByNameAsWritten(old(service.teams), name).None? &&
            TeamUser(newTeamId, userId) !in old(service.members) ==>
              resp == Response(201, TeamCreated("Team created successfully", Team(newTeamId, name, code, false, categoryId))) &&
              TeamUser(newTeamId, userId) in service.members
  {
    var outcome := service.CreateTeam(name, userId, categoryId, categories, itemRows, newTeamId, code, failedPuts);
    if categoryId in categories && TeamByNameAsWritten(old(service.teams), name).None? && TeamUser(newTeamId, userId) !in old(service.members) {
      CreatorJoins(old(service.teams), old(service.members), Team(newTeamId, name, code, false, categoryId), userId);
    }
    resp := CreateTeamResponse(name, categoryId, outcome);
  }

  /** The `joinTeam` route end to end. */
  method JoinTeamHandler(service: TeamService, userId: string, teamId: string, code: string) returns (resp: Response)
    modifies service`members
    ensures resp == JoinTeamResponse(teamId, JoinDecision(service.teams, old(service.members), teamId, userId, code))
    ensures resp.status != 500
    ensures resp.status == 200 <==> service.members == old(service.members) + {TeamUser(teamId, userId)} && TeamUser(teamId, userId) !in old(service.members)
  {
    var outcome := service.AddUserToTeam(teamId, userId, code);
    resp := JoinTeamResponse(teamId, outcome);
  }
}
