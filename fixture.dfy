/**
 * The test fixture's reset, seen with the aliasing it actually has. The store's
 * catalog maps each name to a record held by reference; the fixture fills the
 * store from its own dictionary of freshly built records, and after the test
 * fills it again from the very same dictionary. If the signup endpoint
 * appends to the record it finds in place (the application module is not part
 * of this model, so that is an assumption here), a signup during the test
 * changes one of those shared records, and the second fill brings the modified
 * roster back instead of the seeded one.
 */
module Fixture {
  import opened Catalog
  import opened Enrollment
  import opened RosterStore

  /** A roster held by reference, shared by every map that holds the record. */
  class SharedRecord {
    var participants: seq<string>

    constructor (participants: seq<string>)
      ensures this.participants == participants
    {
      this.participants := participants;
    }
  }

  /**
   * Setup, one signup for Chess Club, then teardown, with records shared by
   * reference as in the fixture: the roster afterwards still holds the new email.
   */
  method TeardownAsWritten(email: string) returns (after: seq<string>)
    requires !Enrolled(SeedCatalog(), "Chess Club", email)
    ensures email in after
    ensures after != SeedCatalog()["Chess Club"].participants
  {
    SeedChessClub();
    // The fixture's own dictionary, built afresh before the test.
    var chess := new SharedRecord(SeedCatalog()["Chess Club"].participants);
    var original := map["Chess Club" := chess];
    // Setup: clear the store, then fill it from the fixture's dictionary.
    var activities: map<string, SharedRecord> := map[];
    activities := activities + original;
    // Assumed: the signup endpoint appends to the record it finds in the store.
    var record := activities["Chess Club"];
    if email !in record.participants {
      record.participants := record.participants + [email];
    }
    // Teardown: clear the store, then fill it from the same dictionary again.
    activities := map[];
    activities := activities + original;
    after := activities["Chess Club"].participants;
  }

  /**
   * The same sequence against the store of this model, whose reset rebuilds the
   * catalog from the seed values: the teardown restores the seeded roster.
   */
  method TeardownReseeded(email: string) returns (after: seq<string>)
    requires !Enrolled(SeedCatalog(), "Chess Club", email)
    ensures after == SeedCatalog()["Chess Club"].participants
    ensures email !in after
  {
    SeedChessClub();
    var s := new Store();
    var _ := s.SignUp("Chess Club", email);
    s.Reset();
    after := s.activities["Chess Club"].participants;
  }
}
