/**
 * The roster store: one mutable catalog, updated in place by signup and
 * unregistration, and reseeded by the reset the test fixture performs before
 * every test. Each method is specified by the corresponding transition of
 * `Enrollment`; the invariant it keeps is that no roster holds an email twice.
 */
module RosterStore {
  import opened Participants
  import opened Catalog
  import opened Enrollment
  import opened Responses

  class Store {
    var activities: Catalog

    /** Every roster is duplicate-free and every record well formed. */
    ghost predicate Valid()
      reads this
    {
      WellFormed(activities)
    }

    /** A store seeded with the fixed catalog. */
    constructor ()
      ensures Valid() && activities == SeedCatalog()
    {
      activities := SeedCatalog();
      SeedWellFormed();
    }

    /** Clear the catalog, then fill it from the seed again. */
    method Reset()
      modifies this
      ensures Valid() && activities == SeedCatalog()
    {
      var seed := SeedCatalog();
      SeedWellFormed();
      activities := map[];
      activities := activities + seed;
      assert activities == seed;
    }

    /** The whole catalog, as listed to clients. */
    method GetAll() returns (snapshot: Catalog)
      requires Valid()
      ensures snapshot == activities
      ensures forall name :: name in snapshot ==> ActivityOk(snapshot[name])
    {
      snapshot := activities;
    }

    /** The record of the activity called exactly `name`, if there is one. */
    method Get(name: string) returns (a: Option<Activity>)
      ensures a == Lookup(activities, name)
    {
      if name in activities {
        a := Some(activities[name]);
      } else {
        a := None;
      }
    }

    /** Sign `email` up for `name`, appending it to that roster. */
    method SignUp(name: string, email: string) returns (r: Result)
      requires Valid()
      modifies this
      ensures Valid()
      ensures r == Enrollment.SignUp(old(activities), name, email).result
      ensures activities == Enrollment.SignUp(old(activities), name, email).catalog
    {
      var found := Get(name);
      if found.None? {
        return Err(ActivityNotFound);
      }
      var a := found.value;
      if email in a.participants {
        return Err(AlreadyRegistered);
      }
      activities := activities[name := a.(participants := a.participants + [email])];
      r := Ok(SignedUpMessage(email, name));
    }

    /** Unregister `email` from `name`, removing it from that roster. */
    method Unregister(name: string, email: string) returns (r: Result)
      requires Valid()
      modifies this
      ensures Valid()
      ensures r == Enrollment.Unregister(old(activities), name, email).result
      ensures activities == Enrollment.Unregister(old(activities), name, email).catalog
    {
      var found := Get(name);
      if found.None? {
        return Err(ActivityNotFound);
      }
      var a := found.value;
      if email !in a.participants {
        return Err(NotRegistered);
      }
      RemoveFirstNoDup(a.participants, email);
      activities := activities[name := a.(participants := RemoveFirst(a.participants, email))];
      r := Ok(UnregisteredMessage(email, name));
    }
  }

  /** The confirmation the Chess Club signup scenario expects, spelled out. */
  lemma NewStudentMessage()
    ensures SignedUpMessage("newstudent@mergington.edu", "Chess Club")
      == "Signed up newstudent@mergington.edu for Chess Club"
  {
  }

  /** The confirmation the Chess Club unregistration scenario expects, spelled out. */
  lemma MichaelMessage()
    ensures UnregisteredMessage("michael@mergington.edu", "Chess Club")
      == "Unregistered michael@mergington.edu from Chess Club"
  {
  }

  /** Listing a freshly seeded store: exactly the seed, nine activities, and the Chess Club record as seeded. */
  method ListSeededActivities() returns (snapshot: Catalog)
    ensures |snapshot| == 9 && snapshot.Keys == SeedNames()
    ensures forall name :: name in snapshot ==> ActivityOk(snapshot[name])
    ensures "Chess Club" in snapshot && snapshot["Chess Club"].maxParticipants == 12
    ensures |snapshot["Chess Club"].participants| == 2
    ensures Enrolled(snapshot, "Chess Club", "michael@mergington.edu")
    ensures Enrolled(snapshot, "Chess Club", "daniel@mergington.edu")
    ensures snapshot["Chess Club"].description == "Learn strategies and compete in chess tournaments"
    ensures snapshot["Chess Club"].schedule == "Fridays, 3:30 PM - 5:00 PM"
    ensures snapshot == SeedCatalog()
  {
    var s := new Store();
    snapshot := s.GetAll();
    SeedHoldsNineActivities();
    SeedChessClub();
  }

  /** A new student signs up for Chess Club: confirmed, and the roster grows to three. */
  method SignupForExistingActivity() returns (resp: Response, roster: seq<string>)
    ensures resp == Response(200, Message("Signed up newstudent@mergington.edu for Chess Club"))
    ensures "newstudent@mergington.edu" in roster && |roster| == 3
  {
    var s := new Store();
    SeedChessClub();
    SignUpAppends(s.activities, "Chess Club", "newstudent@mergington.edu");
    var r := s.SignUp("Chess Club", "newstudent@mergington.edu");
    NewStudentMessage();
    resp := Respond(r);
    roster := s.activities["Chess Club"].participants;
  }

  /** Signing up for an activity that does not exist is "not found", and changes nothing. */
  method SignupForNonexistentActivity() returns (resp: Response, intact: bool)
    ensures resp == Response(404, Detail("Activity not found"))
    ensures intact
  {
    var s := new Store();
    SeedLacks("Nonexistent Club");
    var r := s.SignUp("Nonexistent Club", "student@mergington.edu");
    resp := Respond(r);
    intact := s.activities == SeedCatalog();
  }

  /** Signing up an email already on the roster is a bad request, and changes nothing. */
  method SignupWhenAlreadyRegistered() returns (resp: Response, intact: bool)
    ensures resp == Response(400, Detail("Student already signed up for this activity"))
    ensures intact
  {
    var s := new Store();
    SeedChessClub();
    var r := s.SignUp("Chess Club", "michael@mergington.edu");
    resp := Respond(r);
    intact := s.activities == SeedCatalog();
  }

  /** One student joins Chess Club and Programming Class; both rosters hold them. */
  method SignupForMultipleActivities() returns (status1: int, status2: int, inBoth: bool)
    ensures status1 == 200 && status2 == 200 && inBoth
  {
    var email := "multisport@mergington.edu";
    var s := new Store();
    SeedChessClub();
    SeedProgrammingClass();
    SignUpTwoActivities(s.activities, "Chess Club", "Programming Class", email);
    var r1 := s.SignUp("Chess Club", email);
    var r2 := s.SignUp("Programming Class", email);
    status1, status2 := Status(r1), Status(r2);
    inBoth := Enrolled(s.activities, "Chess Club", email) && Enrolled(s.activities, "Programming Class", email);
  }

  /** A name holding a space, once decoded, addresses Programming Class for both operations. */
  method NamesWithSpaces() returns (status1: int, status2: int)
    ensures status1 == 200 && status2 == 200
  {
    var s := new Store();
    SeedProgrammingClass();
    var r1 := s.SignUp("Programming Class", "coder@mergington.edu");
    s.Reset();
    var r2 := s.Unregister("Programming Class", "emma@mergington.edu");
    status1, status2 := Status(r1), Status(r2);
  }

  /** Unregistering an enrolled student is confirmed, and they are off the roster. */
  method UnregisterFromActivity() returns (resp: Response, stillThere: bool)
    ensures resp == Response(200, Message("Unregistered michael@mergington.edu from Chess Club"))
    ensures !stillThere
  {
    var s := new Store();
    SeedChessClub();
    var r := s.Unregister("Chess Club", "michael@mergington.edu");
    MichaelMessage();
    resp := Respond(r);
    stillThere := Enrolled(s.activities, "Chess Club", "michael@mergington.edu");
  }

  /** Unregistering from an activity that does not exist is "not found", and changes nothing. */
  method UnregisterFromNonexistentActivity() returns (resp: Response, intact: bool)
    ensures resp == Response(404, Detail("Activity not found"))
    ensures intact
  {
    var s := new Store();
    SeedLacks("Nonexistent Club");
    var r := s.Unregister("Nonexistent Club", "student@mergington.edu");
    resp := Respond(r);
    intact := s.activities == SeedCatalog();
  }

  /** Unregistering an email that is not on the roster is a bad request, and changes nothing. */
  method UnregisterWhenNotRegistered() returns (resp: Response, intact: bool)
    ensures resp == Response(400, Detail("Student not signed up for this activity"))
    ensures intact
  {
    var s := new Store();
    SeedChessClub();
    var r := s.Unregister("Chess Club", "notregistered@mergington.edu");
    resp := Respond(r);
    intact := s.activities == SeedCatalog();
  }

  /** Sign up for Drama Club, then unregister: on the roster in between, off it at the end. */
  method SignupAndUnregisterWorkflow() returns (status1: int, between: bool, status2: int, after: bool)
    ensures status1 == 200 && between && status2 == 200 && !after
  {
    var email := "workflow@mergington.edu";
    var s := new Store();
    SeedDramaClub();
    SignUpThenUnregister(s.activities, "Drama Club", email);
    var r1 := s.SignUp("Drama Club", email);
    between := Enrolled(s.activities, "Drama Club", email);
    var r2 := s.Unregister("Drama Club", email);
    after := Enrolled(s.activities, "Drama Club", email);
    status1, status2 := Status(r1), Status(r2);
  }

  /** "chess club" is not "Chess Club": the lookup is case-sensitive. */
  method ActivityNamesAreCaseSensitive() returns (status: int)
    ensures status == 404
  {
    var s := new Store();
    SeedLacks("chess club");
    var r := s.SignUp("chess club", "student@mergington.edu");
    status := Status(r);
  }

  /** Sign each email up for `name` in turn, as a client looping over a list does. */
  method SignUpInTurn(s: Store, name: string, emails: seq<string>) returns (results: seq<Result>)
    requires s.Valid()
    modifies s
    ensures s.Valid()
    ensures results == SignUpEach(old(s.activities), name, emails).results
    ensures s.activities == SignUpEach(old(s.activities), name, emails).catalog
  {
    ghost var start := s.activities;
    results := [];
    var i := 0;
    while i < |emails|
      invariant 0 <= i <= |emails|
      invariant s.Valid()
      invariant results == SignUpEach(start, name, emails[..i]).results
      invariant s.activities == SignUpEach(start, name, emails[..i]).catalog
    {
      SignUpEachSnoc(start, name, emails[..i], emails[i]);
      assert emails[..i + 1] == emails[..i] + [emails[i]];
      var r := s.SignUp(name, emails[i]);
      results := results + [r];
      i := i + 1;
    }
    assert emails[..i] == emails;
  }

  /** Three students join Art Studio in turn: every signup succeeds and all three are on the roster. */
  method MultipleStudentsJoinSameActivity() returns (statuses: seq<int>, roster: seq<string>)
    ensures statuses == [200, 200, 200]
    ensures forall e :: e in ["student1@mergington.edu", "student2@mergington.edu", "student3@mergington.edu"] ==> e in roster
  {
    var emails := ["student1@mergington.edu", "student2@mergington.edu", "student3@mergington.edu"];
    var s := new Store();
    SeedArtStudio();
    assert NoDup(emails);
    SignUpEachSucceeds(s.activities, "Art Studio", emails);
    var results := SignUpInTurn(s, "Art Studio", emails);
    statuses := [Status(results[0]), Status(results[1]), Status(results[2])];
    roster := s.activities["Art Studio"].participants;
  }

  /** Join, leave and join Swimming Club again: the second signup succeeds and the student is enrolled. */
  method CanRejoinAfterUnregistering() returns (status: int, enrolled: bool)
    ensures status == 200 && enrolled
  {
    var email := "rejoin@mergington.edu";
    var s := new Store();
    SeedSwimmingClub();
    RejoinAfterUnregister(s.activities, "Swimming Club", email);
    var _ := s.SignUp("Swimming Club", email);
    var _ := s.Unregister("Swimming Club", email);
    var r := s.SignUp("Swimming Club", email);
    status := Status(r);
    enrolled := Enrolled(s.activities, "Swimming Club", email);
  }
}
