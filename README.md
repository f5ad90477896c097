# Mergington High School activity rosters, modelled in Dafny

The system keeps a fixed catalog of nine extracurricular activities. Each activity has a
description, a schedule, a declared capacity (`max_participants`) and a roster of participant
emails. Students (identified only by email) sign up for an activity or unregister from it. Ask for
a name that is not in the catalog and you get "Activity not found" (404). Sign up an email that is
already on the roster and you get "Student already signed up for this activity" (400). Unregister
an email that is not on it and you get "Student not signed up for this activity" (400). Every
other request succeeds (200) with a confirmation message.

The application module (`src/app.py`) is not part of this model. The behaviour is rebuilt from
what the test suite `tests/test_app.py` asserts. The seed catalog is the fixture's own definition.

Modules (one `.dfy` file each):

- `Participants` (participants.dfy): a roster as a list. `NoDup` is the "no email twice"
  property. `RemoveFirst` is list removal by value: it drops the first equal entry.
- `Catalog` (catalog.dfy): the `Activity` record, the catalog map, the store invariant
  `WellFormed`, exact-match `Lookup`, the nine seeded records and lemmas about the seed.
- `Enrollment` (enrollment.dfy): `SignUp` and `Unregister` as pure transitions,
  `catalog -> (result, catalog)`. It also has the confirmation messages. Lemmas cover the
  per-(activity, email) state machine: frame, inverse, re-join, independence and batches.
- `Responses` (responses.dfy): the mapping from a result to status code and JSON body.
- `RosterStore` (store.dfy): the mutable store. It is a class whose catalog field is updated in
  place by `SignUp`, `Unregister` and `Reset`. Each method is proved equal to the `Enrollment`
  transition, and each keeps the no-duplicate invariant. The same file replays every test
  scenario as a verified method.
- `Fixture` (fixture.dfy): the fixture's teardown with its shared records (see Findings).

## Model

| member | source | states |
|---|---|---|
| `Participants.RemoveFirst` | tests/test_app.py:222-230 | removing an email takes exactly one copy out of the roster's multiset; an absent email leaves the roster as it is |
| `Participants.AppendNoDup` | tests/test_app.py:177-182 | appending an email not yet present keeps the roster duplicate-free |
| `Participants.RemoveFirstNoDup` | tests/test_app.py:222-230 | on a duplicate-free roster, removal leaves it duplicate-free and the email is gone afterwards |
| `Participants.RemoveFirstAppended` | tests/test_app.py:247-265 | removing an email just appended to a roster that lacked it gives the original roster back |
| `Catalog.Lookup` | tests/test_app.py:279-284 | a lookup finds a record iff the exact name is a key, and returns that key's record |
| `Catalog.SeedCatalog` | tests/test_app.py:19-74 | the fixture's dictionary: the nine names, each mapped to its record below |
| `Catalog.ChessClub` | tests/test_app.py:20-25 | the seeded Chess Club record, literal for literal |
| `Catalog.ProgrammingClass` | tests/test_app.py:26-31 | the seeded Programming Class record, literal for literal |
| `Catalog.GymClass` | tests/test_app.py:32-37 | the seeded Gym Class record, literal for literal |
| `Catalog.BasketballTeam` | tests/test_app.py:38-43 | the seeded Basketball Team record, literal for literal |
| `Catalog.SwimmingClub` | tests/test_app.py:44-49 | the seeded Swimming Club record, literal for literal |
| `Catalog.ArtStudio` | tests/test_app.py:50-55 | the seeded Art Studio record, literal for literal |
| `Catalog.DramaClub` | tests/test_app.py:56-61 | the seeded Drama Club record, literal for literal |
| `Catalog.DebateTeam` | tests/test_app.py:62-67 | the seeded Debate Team record, literal for literal |
| `Catalog.ScienceOlympiad` | tests/test_app.py:68-73 | the seeded Science Olympiad record, literal for literal |
| `Catalog.SeedLacks` | tests/test_app.py:169-175 | a name outside the nine seed names, such as "Nonexistent Club", is not in the seeded catalog |
| `Catalog.SeedNamesCount` | tests/test_app.py:105-118 | the nine seed names are pairwise distinct |
| `Catalog.SeedHoldsNineActivities` | tests/test_app.py:105-118 | the seeded catalog has exactly the nine named activities as keys, so it has nine entries |
| `Catalog.SeedChessClub` | tests/test_app.py:132-143 | seeded Chess Club: its description, its schedule, capacity 12, and exactly the roster michael@, daniel@ |
| `Catalog.SeedProgrammingClass` | tests/test_app.py:26-31 | the seeded Programming Class roster (emma@, sophia@) |
| `Catalog.SeedArtStudio` | tests/test_app.py:50-55 | the seeded Art Studio roster (isabella@, charlotte@) |
| `Catalog.SeedSwimmingClub` | tests/test_app.py:44-49 | the seeded Swimming Club roster (ava@, mia@) |
| `Catalog.SeedDramaClub` | tests/test_app.py:56-61 | the seeded Drama Club roster (william@, amelia@) |
| `Catalog.SeedWellFormed` | tests/test_app.py:19-74 | every seeded record has a non-empty description and schedule, a positive capacity and no duplicate email |
| `Enrollment.SignedUpMessage` | tests/test_app.py:155-157 | the signup confirmation: "Signed up " then the email, then " for " and the name, so it is 15 characters longer than the two together |
| `Enrollment.UnregisteredMessage` | tests/test_app.py:218-220 | the unregistration confirmation: "Unregistered " then the email, then " from " and the name, so it is 19 characters longer than the two together |
| `Enrollment.SignUp` | tests/test_app.py:149-182 | succeeds iff the exact name exists and the email is not on its roster; unknown name gives ActivityNotFound, a duplicate gives AlreadyRegistered, and errors change nothing; success returns "Signed up {email} for {name}" and adds exactly one copy of the email to that roster, leaving names, metadata and other records alone; afterwards the email is enrolled iff the activity exists; the no-duplicate invariant is preserved |
| `Enrollment.Unregister` | tests/test_app.py:213-245 | succeeds iff the email is on the exact name's roster; unknown name gives ActivityNotFound, an absent email gives NotRegistered, and errors change nothing; success returns "Unregistered {email} from {name}" and removes exactly one copy; on a duplicate-free catalog the email is no longer enrolled and the invariant is preserved |
| `Enrollment.TransitionsKeepLookup` | tests/test_app.py:279-284 | neither transition adds or removes an activity: every name is found after iff it was found before, and any other activity's record is found unchanged |
| `Enrollment.SignUpAppends` | tests/test_app.py:159-167 | a successful signup puts the email at the end of the roster, after everyone already on it |
| `Enrollment.SignUpFrame` | tests/test_app.py:184-200 | a signup does not change whether any other (activity, email) pair is enrolled |
| `Enrollment.UnregisterFrame` | tests/test_app.py:222-230 | an unregistration does not change whether any other (activity, email) pair is enrolled |
| `Enrollment.SignUpTwice` | tests/test_app.py:177-182 | signing up twice in a row gives success, then AlreadyRegistered with the catalog unchanged |
| `Enrollment.SignUpThenUnregister` | tests/test_app.py:247-265 | unregistering right after a successful signup succeeds and restores the catalog exactly |
| `Enrollment.RejoinAfterUnregister` | tests/test_app.py:304-320 | signup, unregister, signup for the same pair all succeed, with their messages, and the email ends up enrolled |
| `Enrollment.UnregisterThenSignUp` | tests/test_app.py:304-320 | unregistering an enrolled email and signing it up again succeeds and restores the roster's membership |
| `Enrollment.SignUpTwoActivities` | tests/test_app.py:184-200 | one email can sign up for two different activities; both succeed and both rosters then hold it |
| `Enrollment.SignUpEach` | tests/test_app.py:294-296 | one signup after another produces one result per email |
| `Enrollment.SignUpEachSucceeds` | tests/test_app.py:286-302 | distinct emails not yet on a roster, signed up in turn: each gets its confirmation and all are enrolled at the end |
| `Enrollment.SignUpEachSnoc` | tests/test_app.py:294-296 | a batch extended by one email is the batch followed by one more signup |
| `Enrollment.SignUpEachKeeps` | tests/test_app.py:298-302 | a batch of signups never takes an email off a roster |
| `Enrollment.SignedUpMessageDetermines` | tests/test_app.py:155-157 | when the two emails, or the two activity names, have the same length, equal signup confirmations mean equal emails and equal names |
| `Enrollment.UnregisteredMessageDetermines` | tests/test_app.py:218-220 | when the two emails, or the two activity names, have the same length, equal unregistration confirmations mean equal emails and equal names |
| `Enrollment.MessagesAmbiguous` | tests/test_app.py:149-157 | without that length premise a confirmation does not determine its request: "a for b" signing up for "c" reads the same as "a" signing up for "b for c", and likewise with " from " |
| `Enrollment.MessagesDistinct` | tests/test_app.py:213-220 | a signup confirmation never equals an unregistration confirmation |
| `Responses.Status` | tests/test_app.py:169-182 | the status codes: 200 on success, 404 for an unknown activity, 400 for the other two errors |
| `Responses.DetailText` | tests/test_app.py:232-245 | the detail texts "Activity not found", "Student already signed up for this activity" (line 182) and "Student not signed up for this activity" |
| `Responses.Respond` | tests/test_app.py:169-182 | status 200 iff success, 404 iff ActivityNotFound, 400 iff AlreadyRegistered or NotRegistered; a success carries its message, an error a detail |
| `Responses.RespondInjective` | tests/test_app.py:240-245 | different results never give the same response |
| `RosterStore.Store.constructor` | tests/test_app.py:76-78 | a new store holds the seed catalog and satisfies the invariant |
| `RosterStore.Store.Reset` | tests/test_app.py:76-78 | clearing and refilling from the seed leaves exactly the seed catalog, invariant restored |
| `RosterStore.Store.GetAll` | tests/test_app.py:120-130 | the listing is the current catalog; every listed record is well formed |
| `RosterStore.Store.Get` | tests/test_app.py:169-175 | returns exactly what `Catalog.Lookup` finds in the current catalog; the store's signup and unregistration look their activity up through it |
| `RosterStore.Store.SignUp` | tests/test_app.py:159-167 | the in-place signup returns and leaves exactly what `Enrollment.SignUp` prescribes, keeping the invariant |
| `RosterStore.Store.Unregister` | tests/test_app.py:222-230 | the in-place unregistration returns and leaves exactly what `Enrollment.Unregister` prescribes, keeping the invariant |
| `RosterStore.ListSeededActivities` | tests/test_app.py:105-143 | a fresh listing is exactly the seed catalog: nine activities, all well formed, Chess Club with its description, its schedule, capacity 12 and its two seeded participants |
| `RosterStore.SignupForExistingActivity` | tests/test_app.py:149-167 | 200 with "Signed up newstudent@mergington.edu for Chess Club"; the roster then holds the new email and has three entries |
| `RosterStore.SignupForNonexistentActivity` | tests/test_app.py:169-175 | 404 with "Activity not found"; the catalog is unchanged |
| `RosterStore.SignupWhenAlreadyRegistered` | tests/test_app.py:177-182 | 400 with "Student already signed up for this activity"; the catalog is unchanged |
| `RosterStore.SignupForMultipleActivities` | tests/test_app.py:184-200 | both signups return 200 and both rosters hold the email |
| `RosterStore.NamesWithSpaces` | tests/test_app.py:202-207 | the decoded name "Programming Class" is found for signup and for unregister: both 200 |
| `RosterStore.UnregisterFromActivity` | tests/test_app.py:213-230 | 200 with "Unregistered michael@mergington.edu from Chess Club"; michael@ is off the roster |
| `RosterStore.UnregisterFromNonexistentActivity` | tests/test_app.py:232-238 | 404 with "Activity not found"; the catalog is unchanged |
| `RosterStore.UnregisterWhenNotRegistered` | tests/test_app.py:240-245 | 400 with "Student not signed up for this activity"; the catalog is unchanged |
| `RosterStore.SignupAndUnregisterWorkflow` | tests/test_app.py:247-265 | signup 200, enrolled in between, unregister 200, not enrolled at the end |
| `RosterStore.ActivityNamesAreCaseSensitive` | tests/test_app.py:279-284 | "chess club" is not found: 404 |
| `RosterStore.SignUpInTurn` | tests/test_app.py:294-296 | the client loop of signups leaves exactly the results and catalog of `Enrollment.SignUpEach` |
| `RosterStore.MultipleStudentsJoinSameActivity` | tests/test_app.py:286-302 | three distinct students join Art Studio in turn: three 200s, and all three are on the roster |
| `RosterStore.CanRejoinAfterUnregistering` | tests/test_app.py:304-320 | after signup and unregister, a second signup returns 200 and the student is enrolled |
| `Fixture.TeardownAsWritten` | tests/test_app.py:80-84 | with records shared by reference, the teardown leaves the test's new email on the roster, which is not the seeded roster |
| `Fixture.TeardownReseeded` | tests/test_app.py:76-84 | refilling from the seed values restores the seeded roster, without the test's email |

## Left out

- HTTP routing, FastAPI and its test client are not modelled. So are the root redirect to
  `/static/index.html` (tests/test_app.py:90-94) and JSON serialisation. The model starts at the
  calls those layers make.
- URL percent-decoding (`Programming%20Class`) is not modelled, because the web framework does it.
  Names reach the model already decoded.
- The pytest fixture mechanics (`yield`, `autouse`) are not modelled. The reset is a plain `Reset`
  method that reseeds the store.
- Capacity is not enforced. `maxParticipants` is kept as a field, but nothing checks a roster
  against it, because nothing in the tests does.
- Participant order is not modelled. Rosters are lists: signup appends and unregistration removes
  the first equal entry. The properties speak of membership and multisets, not positions.
- Concurrency and locking are not modelled. Every operation is one atomic step on the store.
- Email syntax is not validated. Any string is accepted as an email and as an activity name,
  empty ones included, because nothing in the tests rejects them.
- Aliasing: outside `Fixture`, activity records are values. Sharing one record object between two
  dictionaries only appears in `Fixture`.
- Participants are a duplicate-free list (the tests check `isinstance(..., list)`).
  Membership-only properties would also fit a set, but the list is what the code has.
- Enrollment.SignedUpMessageDetermines and Enrollment.UnregisteredMessageDetermines need the two
  emails or the two names to have the same length. The messages are ambiguous in general when an
  email or a name itself holds " for " or " from " (`Enrollment.MessagesAmbiguous` shows one case).
- `src/app.py` is not part of this model. The endpoint behaviour comes from the test assertions.
  Unregistration is modelled as removing the first matching roster entry.

## Findings

| source | as written | input that shows it | evidently intended | confidence | as-written member | corrected member |
|---|---|---|---|---|---|---|
| tests/test_app.py:82-84 | the teardown refills the store from the same `original_activities` dictionary whose record objects the store has held, and mutated, during the test | a test that signs up `newstudent@mergington.edu` for Chess Club (lines 159-167): after the teardown the Chess Club roster still holds it | the teardown restores the seeded rosters | medium, not executed; it depends on the endpoint appending to the stored list in place, and the next setup rebuilds fresh records, so no visible test fails | `Fixture.TeardownAsWritten` | `Fixture.TeardownReseeded` |
