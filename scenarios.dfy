/** The team scenarios of the test suite, stated as calls of the methods of
    `Repository` and proved from their contracts and the lemmas alone. */
module Scenarios {
  import opened Store
  import opened Documents
  import opened Repository
  import opened Properties

  /** Create "Team Tom", deactivate it, fail to update it without reactivation, then
      reactivate it as "Team Tim" with a second user; the project collection is not touched. */
  method TeamLifecycle(u1: UserRef, u2: UserRef, loadedAt: Timestamp, projects: Table<Project>)
    returns (created: Outcome<Upserted>, refused: Outcome<Upserted>, reactivated: Outcome<Upserted>, last: Team)
    modifies projects
    ensures created == Ok(Upserted(0, true))
    ensures refused == Err(ValidationError(TeamInactive))
    ensures reactivated == Ok(Upserted(0, false))
    ensures last == Team("Team Tim", loadedAt, [u1, u2], true)
  {
    ghost var untouched := projects.State();
    var teams := new Table<Team>(TeamClash);
    ghost var s0 := teams.State();
    created := CreateOrUpdateTeam(teams, "Team Tom", [u1], None, true, None, None, loadedAt);
    TeamCreatesWhenUnseen(s0, "Team Tom", [u1], None, true, loadedAt);
    assert teams.rows == map[0 := Team("Team Tom", loadedAt, [u1], true)];

    var off := Deactivate(teams, 0, None);
    assert !teams.rows[0].isActive;

    ghost var s2 := teams.State();
    refused := CreateOrUpdateTeam(teams, "Team Tom", [u1, u2], Some("Team Tim"), false, None, None, loadedAt);
    TeamInactiveRefused(s2, 0, [u1, u2], Some("Team Tim"), None, None, loadedAt);
    assert teams.State() == s2;

    reactivated := CreateOrUpdateTeam(teams, "Team Tom", [u1, u2], Some("Team Tim"), true, None, None, loadedAt);
    TeamUpdatedInPlace(s2, 0, [u1, u2], Some("Team Tim"), true, None, loadedAt);
    last := teams.rows[0];
    assert projects.State() == untouched;
  }

  /** Another writer saves "Team Tom" after the lookup missed: the call ends with one
      team of that name, the winner's, and reports it as not created. */
  method TeamCreateRace(u1: UserRef, loadedAt: Timestamp, winnerAt: Timestamp)
    returns (r: Outcome<Upserted>, count: nat)
    ensures r == Ok(Upserted(0, false))
    ensures count == 1
  {
    var teams := new Table<Team>(TeamClash);
    ghost var s0 := teams.State();
    var winner := Team("Team Tom", winnerAt, [u1], true);
    r := CreateOrUpdateTeam(teams, "Team Tom", [u1], None, true, Some(winner), None, loadedAt);
    TeamRaceRetryFindsWinner(s0, "Team Tom", [u1], None, true, loadedAt, winner);
    assert teams.rows == map[0 := winner];
    count := |teams.rows|;
  }

  /** A save that fails with an error other than a duplicate key reaches the caller and stores nothing. */
  method TeamCreateOtherError(u1: UserRef, loadedAt: Timestamp) returns (r: Outcome<Upserted>, count: nat)
    ensures r == Err(OtherError("not duplicate key error"))
    ensures count == 0
  {
    var teams := new Table<Team>(TeamClash);
    ghost var s0 := teams.State();
    r := CreateOrUpdateTeam(teams, "Team Tom", [u1], None, true, None, Some("not duplicate key error"), loadedAt);
    TeamOtherErrorPropagates(s0, "Team Tom", [u1], None, true, None, "not duplicate key error", loadedAt);
    count := |teams.rows|;
  }

  /** Two teams created for the same user are both listed for that user, oldest first. */
  method UserTeams(u1: UserRef, loadedAt: Timestamp) returns (first: Outcome<Upserted>, second: Outcome<Upserted>, listed: seq<RecordId>)
    ensures first == Ok(Upserted(0, true)) && second == Ok(Upserted(1, true))
    ensures listed == [0, 1]
  {
    var teams := new Table<Team>(TeamClash);
    ghost var s0 := teams.State();
    first := CreateOrUpdateTeam(teams, "Team User", [u1], None, true, None, None, loadedAt);
    TeamCreatesWhenUnseen(s0, "Team User", [u1], None, true, loadedAt);
    ghost var s1 := teams.State();
    second := CreateOrUpdateTeam(teams, "Team User 2", [u1], None, true, None, None, loadedAt);
    TeamCreatesWhenUnseen(s1, "Team User 2", [u1], None, true, loadedAt);
    listed := TeamsForUser(teams, u1);
    assert teams.nextId == 2 && 0 in teams.rows && 1 in teams.rows;
    assert u1 in teams.rows[0].users && u1 in teams.rows[1].users;
    assert IdsWhere(teams.rows, HasMember(u1), 1) == [0];
  }
}
