/**
 * The enrollment service: signing a student (an email) up for an activity and
 * unregistering them, as transitions on the catalog. Each (activity, email)
 * pair is a two-state machine, enrolled or not; a transition attempted from the
 * wrong state fails and leaves the catalog as it was.
 */
module Enrollment {
  import opened Participants
  import opened Catalog

  /** The three client errors the service can report. */
  datatype Error = ActivityNotFound | AlreadyRegistered | NotRegistered

  /** A confirmation message, or an error. */
  datatype Result = Ok(message: string) | Err(error: Error)

  /** What a transition reports and the catalog it leaves behind. */
  datatype Outcome = Outcome(result: Result, catalog: Catalog)

  /** The confirmation a successful signup returns. */
  function SignedUpMessage(email: string, name: string): (m: string)
    ensures |m| == 15 + |email| + |name|
    ensures m[..10] == "Signed up " && m[10..10 + |email|] == email && m[|m| - |name|..] == name
  {
    "Signed up " + email + " for " + name
  }

  /** The confirmation a successful unregistration returns. */
  function UnregisteredMessage(email: string, name: string): (m: string)
    ensures |m| == 19 + |email| + |name|
    ensures m[..13] == "Unregistered " && m[13..13 + |email|] == email && m[|m| - |name|..] == name
  {
    "Unregistered " + email + " from " + name
  }

  /**
   * `after` differs from `before` at most in the roster of `name`: same activity
   * names, the other records untouched, the metadata of `name` untouched.
   */
  predicate OnlyRosterChanged(before: Catalog, after: Catalog, name: string) {
    && after.Keys == before.Keys
    && name in before
    && after[name].description == before[name].description
    && after[name].schedule == before[name].schedule
    && after[name].maxParticipants == before[name].maxParticipants
    && forall other :: other in before && other != name ==> after[other] == before[other]
  }

  /** Sign `email` up for the activity called exactly `name`. */
  function SignUp(cat: Catalog, name: string, email: string): (o: Outcome)
    ensures o.result.Ok? <==> name in cat && !Enrolled(cat, name, email)
    ensures name !in cat ==> o.result == Err(ActivityNotFound)
    ensures Enrolled(cat, name, email) ==> o.result == Err(AlreadyRegistered)
    ensures o.result.Err? ==> o.catalog == cat
    ensures o.result.Ok? ==>
      && o.result.message == SignedUpMessage(email, name)
      && OnlyRosterChanged(cat, o.catalog, name)
      && multiset(o.catalog[name].participants) == multiset(cat[name].participants) + multiset{email}
    // Whatever the outcome, the email is on the roster afterwards iff the activity exists.
    ensures Enrolled(o.catalog, name, email) <==> name in cat
    // No roster ever gains a duplicate email.
    ensures WellFormed(cat) ==> WellFormed(o.catalog)
  {
    if name !in cat then Outcome(Err(ActivityNotFound), cat)
    else
      var a := cat[name];
      if email in a.participants then Outcome(Err(AlreadyRegistered), cat)
      else
        var a' := a.(participants := a.participants + [email]);
        assert ActivityOk(a) ==> ActivityOk(a') by {
          if ActivityOk(a) { AppendNoDup(a.participants, email); }
        }
        Outcome(Ok(SignedUpMessage(email, name)), cat[name := a'])
  }

  /** Remove `email` from the roster of the activity called exactly `name`. */
  function Unregister(cat: Catalog, name: string, email: string): (o: Outcome)
    ensures o.result.Ok? <==> Enrolled(cat, name, email)
    ensures name !in cat ==> o.result == Err(ActivityNotFound)
    ensures name in cat && !Enrolled(cat, name, email) ==> o.result == Err(NotRegistered)
    ensures o.result.Err? ==> o.catalog == cat
    ensures o.result.Ok? ==>
      && o.result.message == UnregisteredMessage(email, name)
      && OnlyRosterChanged(cat, o.catalog, name)
      && multiset(o.catalog[name].participants) == multiset(cat[name].participants) - multiset{email}
    // On a duplicate-free catalog the email is off the roster afterwards, and it stays duplicate-free.
    ensures WellFormed(cat) ==> WellFormed(o.catalog) && !Enrolled(o.catalog, name, email)
  {
    if name !in cat then Outcome(Err(ActivityNotFound), cat)
    else
      var a := cat[name];
      if email !in a.participants then Outcome(Err(NotRegistered), cat)
      else
        var a' := a.(participants := RemoveFirst(a.participants, email));
        assert ActivityOk(a) ==> ActivityOk(a') && email !in a'.participants by {
          if ActivityOk(a) { RemoveFirstNoDup(a.participants, email); }
        }
        Outcome(Ok(UnregisteredMessage(email, name)), cat[name := a'])
  }

  /**
   * Neither transition adds or removes an activity: every name is found after
   * exactly when it was found before, and a record other than `name`'s is found unchanged.
   */
  lemma TransitionsKeepLookup(cat: Catalog, name: string, email: string, other: string)
    ensures Lookup(SignUp(cat, name, email).catalog, other).Some? <==> Lookup(cat, other).Some?
    ensures Lookup(Unregister(cat, name, email).catalog, other).Some? <==> Lookup(cat, other).Some?
    ensures other != name ==> Lookup(SignUp(cat, name, email).catalog, other) == Lookup(cat, other)
    ensures other != name ==> Lookup(Unregister(cat, name, email).catalog, other) == Lookup(cat, other)
  {
  }

  /** Signing up never changes whether any other (activity, email) pair is enrolled. */
  lemma SignUpFrame(cat: Catalog, name: string, email: string, name': string, email': string)
    requires name' != name || email' != email
    ensures Enrolled(SignUp(cat, name, email).catalog, name', email') <==> Enrolled(cat, name', email')
  {
    var o := SignUp(cat, name, email);
    if o.result.Ok? && name' == name {
      assert email' in multiset(o.catalog[name].participants) <==> email' in multiset(cat[name].participants);
    }
  }

  /** Unregistering never changes whether any other (activity, email) pair is enrolled. */
  lemma UnregisterFrame(cat: Catalog, name: string, email: string, name': string, email': string)
    requires name' != name || email' != email
    ensures Enrolled(Unregister(cat, name, email).catalog, name', email') <==> Enrolled(cat, name', email')
  {
    var o := Unregister(cat, name, email);
    if o.result.Ok? && name' == name {
      assert email' in multiset(o.catalog[name].participants) <==> email' in multiset(cat[name].participants);
    }
  }

  /** A successful signup puts the email at the end of the roster, after everyone already on it. */
  lemma SignUpAppends(cat: Catalog, name: string, email: string)
    requires name in cat && !Enrolled(cat, name, email)
    ensures SignUp(cat, name, email).catalog[name].participants == cat[name].participants + [email]
  {
  }

  /** Signing up twice in a row: success, then AlreadyRegistered with nothing changed. */
  lemma SignUpTwice(cat: Catalog, name: string, email: string)
    requires name in cat && !Enrolled(cat, name, email)
    ensures SignUp(cat, name, email).result.Ok?
    ensures var c := SignUp(cat, name, email).catalog;
      SignUp(c, name, email) == Outcome(Err(AlreadyRegistered), c)
  {
  }

  /** Unregistering is the inverse of a successful signup: the catalog comes back exactly. */
  lemma SignUpThenUnregister(cat: Catalog, name: string, email: string)
    requires name in cat && !Enrolled(cat, name, email)
    ensures var c := SignUp(cat, name, email).catalog;
      Unregister(c, name, email) == Outcome(Ok(UnregisteredMessage(email, name)), cat)
  {
    var c := SignUp(cat, name, email).catalog;
    RemoveFirstAppended(cat[name].participants, email);
    assert Unregister(c, name, email).catalog[name] == cat[name];
    assert Unregister(c, name, email).catalog == cat;
  }

  /**
   * Re-enrollment is always permitted: signup, unregister, signup for the same
   * pair succeed in turn, and the email ends on the roster.
   */
  lemma RejoinAfterUnregister(cat: Catalog, name: string, email: string)
    requires name in cat && !Enrolled(cat, name, email)
    ensures var o1 := SignUp(cat, name, email);
      var o2 := Unregister(o1.catalog, name, email);
      var o3 := SignUp(o2.catalog, name, email);
      && o1.result == Ok(SignedUpMessage(email, name))
      && o2.result == Ok(UnregisteredMessage(email, name))
      && o3.result == Ok(SignedUpMessage(email, name))
      && Enrolled(o3.catalog, name, email)
  {
    SignUpThenUnregister(cat, name, email);
  }

  /** Unregistering and signing up again restores the roster's membership (its position may move). */
  lemma UnregisterThenSignUp(cat: Catalog, name: string, email: string)
    requires WellFormed(cat) && Enrolled(cat, name, email)
    ensures var o1 := Unregister(cat, name, email);
      var o2 := SignUp(o1.catalog, name, email);
      && o2.result == Ok(SignedUpMessage(email, name))
      && multiset(o2.catalog[name].participants) == multiset(cat[name].participants)
  {
    var o1 := Unregister(cat, name, email);
    assert email in multiset(cat[name].participants);
  }

  /** One email may join two different activities; both rosters then hold it. */
  lemma SignUpTwoActivities(cat: Catalog, name1: string, name2: string, email: string)
    requires name1 != name2 && name1 in cat && name2 in cat
    requires !Enrolled(cat, name1, email) && !Enrolled(cat, name2, email)
    ensures var o1 := SignUp(cat, name1, email);
      var o2 := SignUp(o1.catalog, name2, email);
      && o1.result.Ok? && o2.result.Ok?
      && Enrolled(o2.catalog, name1, email) && Enrolled(o2.catalog, name2, email)
  {
    var o1 := SignUp(cat, name1, email);
    SignUpFrame(cat, name1, email, name2, email);
    SignUpFrame(o1.catalog, name2, email, name1, email);
  }

  /** Several signups for one activity, one email after another: the results in order and the final catalog. */
  datatype Batch = Batch(results: seq<Result>, catalog: Catalog)

  function SignUpEach(cat: Catalog, name: string, emails: seq<string>): (b: Batch)
    ensures |b.results| == |emails|
    decreases |emails|
  {
    if emails == [] then Batch([], cat)
    else
      var o := SignUp(cat, name, emails[0]);
      var rest := SignUpEach(o.catalog, name, emails[1..]);
      Batch([o.result] + rest.results, rest.catalog)
  }

  /**
   * Distinct emails, none of them on the roster yet, signed up in turn for one
   * activity: every signup succeeds and the roster ends up holding all of them.
   */
  lemma {:induction false} SignUpEachSucceeds(cat: Catalog, name: string, emails: seq<string>)
    requires name in cat && NoDup(emails)
    requires forall e :: e in emails ==> !Enrolled(cat, name, e)
    ensures var b := SignUpEach(cat, name, emails);
      && (forall i :: 0 <= i < |b.results| ==> b.results[i] == Ok(SignedUpMessage(emails[i], name)))
      && (forall e :: e in emails ==> Enrolled(b.catalog, name, e))
    decreases |emails|
  {
    if emails != [] {
      var o := SignUp(cat, name, emails[0]);
      TailNoDup(emails);
      forall e | e in emails[1..] ensures !Enrolled(o.catalog, name, e) {
        SignUpFrame(cat, name, emails[0], name, e);
      }
      SignUpEachSucceeds(o.catalog, name, emails[1..]);
      var rest := SignUpEach(o.catalog, name, emails[1..]);
      SignUpEachKeeps(o.catalog, name, emails[1..], emails[0]);
      forall i | 0 <= i < |emails| ensures SignUpEach(cat, name, emails).results[i] == Ok(SignedUpMessage(emails[i], name)) {
        if i > 0 {
          assert rest.results[i - 1] == Ok(SignedUpMessage(emails[1..][i - 1], name));
        }
      }
    }
  }

  /** A batch extended by one more email is the batch followed by one more signup. */
  lemma {:induction false} SignUpEachSnoc(cat: Catalog, name: string, emails: seq<string>, email: string)
    ensures var b := SignUpEach(cat, name, emails);
      var o := SignUp(b.catalog, name, email);
      SignUpEach(cat, name, emails + [email]) == Batch(b.results + [o.result], o.catalog)
    decreases |emails|
  {
    if emails == [] {
      assert [] + [email] == [email];
      assert [email][1..] == [];
    } else {
      var o := SignUp(cat, name, emails[0]);
      assert (emails + [email])[0] == emails[0];
      assert (emails + [email])[1..] == emails[1..] + [email];
      SignUpEachSnoc(o.catalog, name, emails[1..], email);
    }
  }

  /** A batch of signups never takes an email off a roster. */
  lemma {:induction false} SignUpEachKeeps(cat: Catalog, name: string, emails: seq<string>, email: string)
    requires Enrolled(cat, name, email)
    ensures Enrolled(SignUpEach(cat, name, emails).catalog, name, email)
    decreases |emails|
  {
    if emails != [] {
      var o := SignUp(cat, name, emails[0]);
      if emails[0] != email {
        SignUpFrame(cat, name, emails[0], name, email);
      }
      SignUpEachKeeps(o.catalog, name, emails[1..], email);
    }
  }

  /** A signup confirmation names the email and the activity it was for: equal confirmations mean equal requests. */
  lemma SignedUpMessageDetermines(email1: string, name1: string, email2: string, name2: string)
    requires SignedUpMessage(email1, name1) == SignedUpMessage(email2, name2)
    requires |email1| == |email2| || |name1| == |name2|
    ensures email1 == email2 && name1 == name2
  {
    var m := SignedUpMessage(email1, name1);
    assert |email1| == |email2| && |name1| == |name2|;
    assert email1 == m[10..10 + |email1|];
    assert email2 == m[10..10 + |email2|];
    assert name1 == m[|m| - |name1|..];
    assert name2 == m[|m| - |name2|..];
  }

  /** An unregistration confirmation names the email and the activity it was for. */
  lemma UnregisteredMessageDetermines(email1: string, name1: string, email2: string, name2: string)
    requires UnregisteredMessage(email1, name1) == UnregisteredMessage(email2, name2)
    requires |email1| == |email2| || |name1| == |name2|
    ensures email1 == email2 && name1 == name2
  {
    var m := UnregisteredMessage(email1, name1);
    assert |email1| == |email2| && |name1| == |name2|;
    assert email1 == m[13..13 + |email1|];
    assert email2 == m[13..13 + |email2|];
    assert name1 == m[|m| - |name1|..];
    assert name2 == m[|m| - |name2|..];
  }

  /**
   * Without the length premise the confirmations are ambiguous: an email that
   * itself holds " for " (or " from ") reads the same as a different split.
   */
  lemma MessagesAmbiguous()
    ensures SignedUpMessage("a for b", "c") == SignedUpMessage("a", "b for c")
    ensures UnregisteredMessage("a from b", "c") == UnregisteredMessage("a", "b from c")
  {
  }

  /** A signup confirmation is never mistaken for an unregistration confirmation. */
  lemma MessagesDistinct(email1: string, name1: string, email2: string, name2: string)
    ensures SignedUpMessage(email1, name1) != UnregisteredMessage(email2, name2)
  {
    assert SignedUpMessage(email1, name1)[0] == 'S';
    assert UnregisteredMessage(email2, name2)[0] == 'U';
  }
}
