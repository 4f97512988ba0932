/**
 * The team and racer registry kept by the team owners: team creation with
 * unique names, racer creation limited to two racers per team, and the
 * owner-only updates that keep every field the request leaves falsy.
 */
module Registry {
  import opened Common

  datatype Team = Team(name: string, logo: string, country: string, owner: Id)

  datatype Racer = Racer(name: string, age: int, country: string, racingNumber: int,
                         profilePicture: string, team: Id)

  datatype Registry = Registry(teams: map<Id, Team>, racers: map<Id, Racer>)

  /** The most racers a team may have. */
  const MaxRacersPerTeam := 2

  /** The body of a racer create or update request. */
  datatype RacerInput = RacerInput(name: string, age: Option<int>, country: string,
                                   racingNumber: Option<int>, profilePicture: string)

  /** `Racer.countDocuments({ team })`: the racers registered to a team. */
  function RacersOf(reg: Registry, teamId: Id): set<Id> {
    set r | r in reg.racers && reg.racers[r].team == teamId
  }

  ghost predicate WithinCapacity(reg: Registry) {
    forall t :: |RacersOf(reg, t)| <= MaxRacersPerTeam
  }

  predicate NameTaken(reg: Registry, name: string) {
    exists t :: t in reg.teams && reg.teams[t].name == name
  }

  predicate UniqueNames(reg: Registry) {
    forall a, b :: a in reg.teams && b in reg.teams && a != b ==> reg.teams[a].name != reg.teams[b].name
  }

  predicate RacersHaveTeams(reg: Registry) {
    forall r :: r in reg.racers ==> reg.racers[r].team in reg.teams
  }

  // ---------------------------------------------------------------- teams

  /**
   * createTeam: a taken name is refused (400); a missing name or country
   * fails the schema's required fields (500); otherwise the caller owns the
   * new team. `newId` is the id the store assigns.
   */
  function CreateTeam(reg: Registry, caller: Id, name: string, logo: string, country: string, newId: Id): (r: Result<Registry>)
    requires newId !in reg.teams
    ensures NameTaken(reg, name) ==> r == Err(BadRequest)
    ensures !NameTaken(reg, name) && (name == "" || country == "") ==> r == Err(ServerError)
    ensures r.Ok? <==> !NameTaken(reg, name) && name != "" && country != ""
    ensures r.Ok? ==> r.value.teams == reg.teams[newId := Team(name, logo, country, caller)]
                      && r.value.racers == reg.racers
  {
    if NameTaken(reg, name) then Err(BadRequest)
    else if name == "" || country == "" then Err(ServerError)
    else Ok(reg.(teams := reg.teams[newId := Team(name, logo, country, caller)]))
  }

  /** Creating a team keeps team names unique. */
  lemma CreateTeamKeepsNamesUnique(reg: Registry, caller: Id, name: string, logo: string, country: string, newId: Id)
    requires newId !in reg.teams && UniqueNames(reg)
    ensures CreateTeam(reg, caller, name, logo, country, newId).Ok? ==>
              UniqueNames(CreateTeam(reg, caller, name, logo, country, newId).value)
  {
  }

  /** Some team other than `teamId` already holds `name`. */
  predicate NameHeldByOther(reg: Registry, teamId: Id, name: string) {
    exists id :: id in reg.teams && id != teamId && reg.teams[id].name == name
  }

  /**
   * updateTeam: only the owner may update; each of name, logo and country is
   * replaced only by a non-empty value. The owner never changes. The
   * controller does not check the new name, but the unique index on team
   * names makes `save` fail on a name another team holds, which the `catch`
   * answers with 500.
   */
  function UpdateTeam(reg: Registry, caller: Id, teamId: Id, name: string, logo: string, country: string): (r: Result<Registry>)
    ensures teamId !in reg.teams ==> r == Err(NotFound)
    ensures teamId in reg.teams && reg.teams[teamId].owner != caller ==> r == Err(Forbidden)
    ensures (teamId in reg.teams && reg.teams[teamId].owner == caller && name != "" && NameHeldByOther(reg, teamId, name))
              ==> r == Err(ServerError)
    ensures r.Ok? <==> teamId in reg.teams && reg.teams[teamId].owner == caller
                       && !(name != "" && NameHeldByOther(reg, teamId, name))
    ensures r.Ok? ==> r.value.teams.Keys == reg.teams.Keys
    ensures r.Ok? ==>
              var t, t' := reg.teams[teamId], r.value.teams[teamId];
              && (forall id :: id in reg.teams && id != teamId ==> r.value.teams[id] == reg.teams[id])
              && r.value.racers == reg.racers
              && t'.owner == t.owner
              && t'.name == (if name != "" then name else t.name)
              && t'.logo == (if logo != "" then logo else t.logo)
              && t'.country == (if country != "" then country else t.country)
  {
    if teamId !in reg.teams then Err(NotFound)
    else
      var t := reg.teams[teamId];
      if t.owner != caller then Err(Forbidden)
      else if name != "" && NameHeldByOther(reg, teamId, name) then Err(ServerError)
      else
        var t' := t.(name := OrStr(name, t.name), logo := OrStr(logo, t.logo), country := OrStr(country, t.country));
        Ok(reg.(teams := reg.teams[teamId := t']))
  }

  /** A request whose fields are all empty leaves the registry as it was. */
  lemma UpdateTeamEmptyBodyKeepsRegistry(reg: Registry, teamId: Id)
    requires teamId in reg.teams
    ensures UpdateTeam(reg, reg.teams[teamId].owner, teamId, "", "", "") == Ok(reg)
  {
    assert reg.teams[teamId := reg.teams[teamId]] == reg.teams;
  }

  /** Updating a team moves no racer and removes no team, so rosters and team references survive. */
  lemma UpdateTeamKeepsRosters(reg: Registry, caller: Id, teamId: Id, name: string, logo: string, country: string)
    ensures UpdateTeam(reg, caller, teamId, name, logo, country).Ok? ==>
              var reg' := UpdateTeam(reg, caller, teamId, name, logo, country).value;
              && (forall t :: RacersOf(reg', t) == RacersOf(reg, t))
              && (RacersHaveTeams(reg) ==> RacersHaveTeams(reg'))
  {
  }

  /** Updating a team keeps team names pairwise distinct. */
  lemma UpdateTeamKeepsNamesUnique(reg: Registry, caller: Id, teamId: Id, name: string, logo: string, country: string)
    requires UniqueNames(reg)
    ensures UpdateTeam(reg, caller, teamId, name, logo, country).Ok? ==>
              UniqueNames(UpdateTeam(reg, caller, teamId, name, logo, country).value)
  {
  }

  /** A rename onto a name another team holds is refused with 500 and changes nothing. */
  lemma UpdateTeamRefusesTakenName()
    ensures var reg := Registry(map["t1" := Team("Red", "", "AT", "o1"), "t2" := Team("Blue", "", "GB", "o2")], map[]);
            UpdateTeam(reg, "o2", "t2", "Red", "", "") == Err(ServerError)
  {
    var reg := Registry(map["t1" := Team("Red", "", "AT", "o1"), "t2" := Team("Blue", "", "GB", "o2")], map[]);
    assert NameHeldByOther(reg, "t2", "Red") by { assert reg.teams["t1"].name == "Red"; }
  }

  // ---------------------------------------------------------------- racers

  predicate RacerFieldsPresent(input: RacerInput) {
    input.name != "" && input.age.Some? && input.country != "" && input.racingNumber.Some?
  }

  /**
   * createRacer: an unknown team is 404, a caller who does not own it 403,
   * a team that already has two racers 400, a missing required field 500.
   * `newId` is the id the store assigns.
   */
  function CreateRacer(reg: Registry, caller: Id, teamId: Id, input: RacerInput, newId: Id): (r: Result<Registry>)
    requires newId !in reg.racers
    ensures teamId !in reg.teams ==> r == Err(NotFound)
    ensures teamId in reg.teams && reg.teams[teamId].owner != caller ==> r == Err(Forbidden)
    ensures (teamId in reg.teams && reg.teams[teamId].owner == caller && |RacersOf(reg, teamId)| >= MaxRacersPerTeam)
              ==> r == Err(BadRequest)
    ensures (teamId in reg.teams && reg.teams[teamId].owner == caller && |RacersOf(reg, teamId)| < MaxRacersPerTeam
             && !RacerFieldsPresent(input)) ==> r == Err(ServerError)
    ensures r.Ok? <==> teamId in reg.teams && reg.teams[teamId].owner == caller
                       && |RacersOf(reg, teamId)| < MaxRacersPerTeam && RacerFieldsPresent(input)
    ensures r.Ok? ==>
              && r.value.teams == reg.teams
              && r.value.racers == reg.racers[newId := Racer(input.name, input.age.value, input.country,
                                                             input.racingNumber.value, input.profilePicture, teamId)]
  {
    if teamId !in reg.teams then Err(NotFound)
    else if reg.teams[teamId].owner != caller then Err(Forbidden)
    else if |RacersOf(reg, teamId)| >= MaxRacersPerTeam then Err(BadRequest)
    else if !RacerFieldsPresent(input) then Err(ServerError)
    else
      var racer := Racer(input.name, input.age.value, input.country, input.racingNumber.value,
                         input.profilePicture, teamId);
      Ok(reg.(racers := reg.racers[newId := racer]))
  }

  /** Creating a racer adds it to its team's roster and leaves every other roster alone. */
  lemma CreateRacerRosters(reg: Registry, caller: Id, teamId: Id, input: RacerInput, newId: Id)
    requires newId !in reg.racers
    ensures CreateRacer(reg, caller, teamId, input, newId).Ok? ==>
              var reg' := CreateRacer(reg, caller, teamId, input, newId).value;
              && RacersOf(reg', teamId) == RacersOf(reg, teamId) + {newId}
              && |RacersOf(reg', teamId)| == |RacersOf(reg, teamId)| + 1
              && forall t :: t != teamId ==> RacersOf(reg', t) == RacersOf(reg, t)
  {
    var r := CreateRacer(reg, caller, teamId, input, newId);
    if r.Ok? {
      var reg' := r.value;
      assert RacersOf(reg', teamId) == RacersOf(reg, teamId) + {newId};
      assert newId !in RacersOf(reg, teamId);
    }
  }

  /** Creating a racer keeps every team at two racers or fewer, and every racer on an existing team. */
  lemma CreateRacerKeepsCapacity(reg: Registry, caller: Id, teamId: Id, input: RacerInput, newId: Id)
    requires newId !in reg.racers && WithinCapacity(reg) && RacersHaveTeams(reg)
    ensures CreateRacer(reg, caller, teamId, input, newId).Ok? ==>
              var reg' := CreateRacer(reg, caller, teamId, input, newId).value;
              WithinCapacity(reg') && RacersHaveTeams(reg')
  {
    var r := CreateRacer(reg, caller, teamId, input, newId);
    if r.Ok? {
      CreateRacerRosters(reg, caller, teamId, input, newId);
      forall t ensures |RacersOf(r.value, t)| <= MaxRacersPerTeam {
        if t != teamId { assert RacersOf(r.value, t) == RacersOf(reg, t); }
      }
    }
  }

  /**
   * updateRacer: an unknown racer is 404; a racer whose team record is gone
   * fails when the owner is read (500); a caller who does not own the team
   * is 403. Each field is replaced only by a truthy value; the team never changes.
   */
  function UpdateRacer(reg: Registry, caller: Id, racerId: Id, input: RacerInput): (r: Result<Registry>)
    ensures racerId !in reg.racers ==> r == Err(NotFound)
    ensures racerId in reg.racers && reg.racers[racerId].team !in reg.teams ==> r == Err(ServerError)
    ensures (racerId in reg.racers && reg.racers[racerId].team in reg.teams
              && reg.teams[reg.racers[racerId].team].owner != caller) ==> r == Err(Forbidden)
    ensures r.Ok? <==> racerId in reg.racers && reg.racers[racerId].team in reg.teams
                       && reg.teams[reg.racers[racerId].team].owner == caller
    ensures r.Ok? ==> r.value.racers.Keys == reg.racers.Keys
    ensures r.Ok? ==>
              var x, x' := reg.racers[racerId], r.value.racers[racerId];
              && (forall id :: id in reg.racers && id != racerId ==> r.value.racers[id] == reg.racers[id])
              && r.value.teams == reg.teams
              && x'.team == x.team
              && x'.name == (if input.name != "" then input.name else x.name)
              && x'.age == (if TruthyInt(input.age) then input.age.value else x.age)
              && x'.country == (if input.country != "" then input.country else x.country)
              && x'.racingNumber == (if TruthyInt(input.racingNumber) then input.racingNumber.value else x.racingNumber)
              && x'.profilePicture == (if input.profilePicture != "" then input.profilePicture else x.profilePicture)
  {
    if racerId !in reg.racers then Err(NotFound)
    else
      var x := reg.racers[racerId];
      if x.team !in reg.teams then Err(ServerError)
      else if reg.teams[x.team].owner != caller then Err(Forbidden)
      else
        var x' := x.(name := OrStr(input.name, x.name),
                     age := OrInt(input.age, x.age),
                     country := OrStr(input.country, x.country),
                     racingNumber := OrInt(input.racingNumber, x.racingNumber),
                     profilePicture := OrStr(input.profilePicture, x.profilePicture));
        Ok(reg.(racers := reg.racers[racerId := x']))
  }

  /** Updating a racer moves no racer between teams, so every roster is unchanged. */
  lemma UpdateRacerKeepsRosters(reg: Registry, caller: Id, racerId: Id, input: RacerInput)
    ensures UpdateRacer(reg, caller, racerId, input).Ok? ==>
              var reg' := UpdateRacer(reg, caller, racerId, input).value;
              (forall t :: RacersOf(reg', t) == RacersOf(reg, t))
              && (WithinCapacity(reg) ==> WithinCapacity(reg'))
  {
    var r := UpdateRacer(reg, caller, racerId, input);
    if r.Ok? {
      forall t ensures RacersOf(r.value, t) == RacersOf(reg, t) {
      }
    }
  }

  /** When every racer's team exists, updateRacer never reaches the failing owner lookup. */
  lemma UpdateRacerNoServerError(reg: Registry, caller: Id, racerId: Id, input: RacerInput)
    requires RacersHaveTeams(reg)
    ensures UpdateRacer(reg, caller, racerId, input) != Err(ServerError)
  {
  }
}
