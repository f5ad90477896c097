/**
 * The activity catalog: a map from activity name to its record, and the fixed
 * seed the store starts from (nine activities, two participants each).
 */
module Catalog {
  import opened Participants

  /** One activity record. `maxParticipants` is declared capacity only: nothing enforces it. */
  datatype Activity = Activity(
    description: string,
    schedule: string,
    maxParticipants: int,
    participants: seq<string>)

  /** Activity name to record. Names are matched exactly, case and spaces included. */
  type Catalog = map<string, Activity>

  /** What every listed record satisfies: text fields present, positive capacity, no duplicate email. */
  predicate ActivityOk(a: Activity) {
    a.description != "" && a.schedule != "" && a.maxParticipants > 0 && NoDup(a.participants)
  }

  /** The store invariant: every record of the catalog is well formed. */
  predicate WellFormed(cat: Catalog) {
    forall name :: name in cat ==> ActivityOk(cat[name])
  }

  /** `email` is on the roster of `name`, and `name` exists. */
  predicate Enrolled(cat: Catalog, name: string, email: string) {
    name in cat && email in cat[name].participants
  }

  datatype Option<T> = None | Some(value: T)

  /** Exact-match lookup: no partial or case-insensitive matching. */
  function Lookup(cat: Catalog, name: string): (r: Option<Activity>)
    ensures r.Some? <==> name in cat
    ensures r.Some? ==> r.value == cat[name]
  {
    if name in cat then Some(cat[name]) else None
  }

  /** The nine names of the seed catalog. */
  function SeedNames(): set<string> {
    {"Chess Club", "Programming Class", "Gym Class", "Basketball Team", "Swimming Club",
     "Art Studio", "Drama Club", "Debate Team", "Science Olympiad"}
  }

  /** The catalog the store is seeded (and reset) with. */
  function SeedCatalog(): Catalog {
    map[
      "Chess Club" := ChessClub(),
      "Programming Class" := ProgrammingClass(),
      "Gym Class" := GymClass(),
      "Basketball Team" := BasketballTeam(),
      "Swimming Club" := SwimmingClub(),
      "Art Studio" := ArtStudio(),
      "Drama Club" := DramaClub(),
      "Debate Team" := DebateTeam(),
      "Science Olympiad" := ScienceOlympiad()
    ]
  }

  // The nine seeded records: each well formed, each with two participants.

  function ChessClub(): (a: Activity)
  {
    Activity(
      "Learn strategies and compete in chess tournaments",
      "Fridays, 3:30 PM - 5:00 PM",
      12,
      ["michael@mergington.edu", "daniel@mergington.edu"])
  }

  function ProgrammingClass(): (a: Activity)
  {
    Activity(
      "Learn programming fundamentals and build software projects",
      "Tuesdays and Thursdays, 3:30 PM - 4:30 PM",
      20,
      ["emma@mergington.edu", "sophia@mergington.edu"])
  }

  function GymClass(): (a: Activity)
  {
    Activity(
      "Physical education and sports activities",
      "Mondays, Wednesdays, Fridays, 2:00 PM - 3:00 PM",
      30,
      ["john@mergington.edu", "olivia@mergington.edu"])
  }

  function BasketballTeam(): (a: Activity)
  {
    Activity(
      "Competitive basketball training and inter-school matches",
      "Tuesdays and Thursdays, 4:00 PM - 6:00 PM",
      15,
      ["james@mergington.edu", "lucas@mergington.edu"])
  }

  function SwimmingClub(): (a: Activity)
  {
    Activity(
      "Swimming techniques and endurance training",
      "Wednesdays, 3:30 PM - 5:00 PM",
      20,
      ["ava@mergington.edu", "mia@mergington.edu"])
  }

  function ArtStudio(): (a: Activity)
  {
    Activity(
      "Painting, drawing, and mixed media art projects",
      "Thursdays, 3:30 PM - 5:30 PM",
      15,
      ["isabella@mergington.edu", "charlotte@mergington.edu"])
  }

  function DramaClub(): (a: Activity)
  {
    Activity(
      "Acting, stage performance, and annual theater productions",
      "Mondays and Wednesdays, 4:00 PM - 6:00 PM",
      25,
      ["william@mergington.edu", "amelia@mergington.edu"])
  }

  function DebateTeam(): (a: Activity)
  {
    Activity(
      "Develop critical thinking and public speaking skills through competitive debates",
      "Fridays, 4:00 PM - 5:30 PM",
      16,
      ["ethan@mergington.edu", "harper@mergington.edu"])
  }

  function ScienceOlympiad(): (a: Activity)
  {
    Activity(
      "Prepare for science competitions and conduct experiments",
      "Tuesdays, 3:30 PM - 5:00 PM",
      18,
      ["benjamin@mergington.edu", "evelyn@mergington.edu"])
  }

  /** The nine seed names are pairwise distinct. */
  lemma SeedNamesCount()
    ensures |SeedNames()| == 9
  {
    var s1 := {"Chess Club"};
    var s2 := s1 + {"Programming Class"};
    var s3 := s2 + {"Gym Class"};
    var s4 := s3 + {"Basketball Team"};
    var s5 := s4 + {"Swimming Club"};
    var s6 := s5 + {"Art Studio"};
    var s7 := s6 + {"Drama Club"};
    var s8 := s7 + {"Debate Team"};
    var s9 := s8 + {"Science Olympiad"};
    assert |s9| == 9;
    assert SeedNames() == s9;
  }

  /** The seed holds exactly the nine named activities: nine keys, no more, no fewer. */
  lemma SeedHoldsNineActivities()
    ensures SeedCatalog().Keys == SeedNames()
    ensures |SeedCatalog()| == 9
  {
    assert SeedCatalog().Keys == SeedNames();
    SeedNamesCount();
  }

  /** A name outside the nine seed names is not in the seed catalog. */
  lemma SeedLacks(name: string)
    requires name !in SeedNames()
    ensures name !in SeedCatalog()
  {
    SeedHoldsNineActivities();
  }

  /** The seeded Chess Club record, as listed at start-up. */
  lemma SeedChessClub()
    ensures "Chess Club" in SeedCatalog()
    ensures SeedCatalog()["Chess Club"].description == "Learn strategies and compete in chess tournaments"
    ensures SeedCatalog()["Chess Club"].schedule == "Fridays, 3:30 PM - 5:00 PM"
    ensures SeedCatalog()["Chess Club"].maxParticipants == 12
    ensures SeedCatalog()["Chess Club"].participants == ["michael@mergington.edu", "daniel@mergington.edu"]
    ensures |SeedCatalog()["Chess Club"].participants| == 2
    ensures Enrolled(SeedCatalog(), "Chess Club", "michael@mergington.edu")
    ensures Enrolled(SeedCatalog(), "Chess Club", "daniel@mergington.edu")
  {
  }

  /** The seeded Programming Class roster. */
  lemma SeedProgrammingClass()
    ensures "Programming Class" in SeedCatalog()
    ensures SeedCatalog()["Programming Class"].participants == ["emma@mergington.edu", "sophia@mergington.edu"]
  {
  }

  /** The seeded Art Studio roster. */
  lemma SeedArtStudio()
    ensures "Art Studio" in SeedCatalog()
    ensures SeedCatalog()["Art Studio"].participants == ["isabella@mergington.edu", "charlotte@mergington.edu"]
  {
  }

  /** The seeded Swimming Club roster. */
  lemma SeedSwimmingClub()
    ensures "Swimming Club" in SeedCatalog()
    ensures SeedCatalog()["Swimming Club"].participants == ["ava@mergington.edu", "mia@mergington.edu"]
  {
  }

  /** The seeded Drama Club roster. */
  lemma SeedDramaClub()
    ensures "Drama Club" in SeedCatalog()
    ensures SeedCatalog()["Drama Club"].participants == ["william@mergington.edu", "amelia@mergington.edu"]
  {
  }

  /** Every seeded record is well formed, so the store starts in a state satisfying its invariant. */
  lemma SeedWellFormed()
    ensures WellFormed(SeedCatalog())
  {
  }
}
