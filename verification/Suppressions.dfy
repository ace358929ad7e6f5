/**
 The suppression list: addresses that must not be sent to, each under one or more reasons.
 Addresses are compared without case and surrounding blanks.
 */
module Suppressions {
  import opened Text
  import opened Clock
  import opened Tables

  function Lower(s: string): string {
    seq(|s|, i requires 0 <= i < |s| => LowerChar(s[i]))
  }

  /** The form under which an address is stored and looked up. */
  function NormalizeEmail(email: string): string {
    Lower(TrimSpace(email))
  }

  /** Suppressed under any reason. */
  predicate IsSuppressed(db: Db, email: string) {
    exists k :: k in db.suppressions && k.0 == NormalizeEmail(email)
  }

  // ---- the same address -----------------------------------------------------

  /** Equal but for blanks around them and the case of letters. */
  predicate SameAddress(a: string, b: string) {
    SameText(TrimSpace(a), TrimSpace(b))
  }

  lemma SameAddressSameKey(a: string, b: string)
    ensures NormalizeEmail(a) == NormalizeEmail(b) <==> SameAddress(a, b)
  {
    hide TrimSpace;
    var s, t := TrimSpace(a), TrimSpace(b);
    assert |Lower(s)| == |s| && |Lower(t)| == |t|;
    if NormalizeEmail(a) == NormalizeEmail(b) {
      forall i | 0 <= i < |s| ensures SameLetter(s[i], t[i]) {
        assert Lower(s)[i] == Lower(t)[i];
      }
    }
  }

  lemma NormalizedIsSame(email: string)
    ensures SameAddress(NormalizeEmail(email), email)
  {
    hide IsSpace;
    var s := TrimSpace(email);
    forall i | 0 <= i < |s| ensures IsSpace(Lower(s)[i]) <==> IsSpace(s[i]) { LowerKeepsBlanks(s[i]); }
    TrimIsIdentity(Lower(s));
    hide TrimSpace;
  }

  lemma LowerKeepsBlanks(c: char)
    ensures IsSpace(LowerChar(c)) <==> IsSpace(c)
  {
  }

  // ---- the statements -------------------------------------------------------

  /** INSERT ... ON CONFLICT DO NOTHING. */
  function AddTx(db: Db, email: string, reason: string, sourceEndpoint: string, at: int): Db {
    var key := (NormalizeEmail(email), reason);
    if key in db.suppressions then db
    else db.(suppressions := db.suppressions[key := SuppressionRow(sourceEndpoint, Unix(at))])
  }

  function RowsFor(db: Db, email: string): set<(string, string)> {
    set k | k in db.suppressions && k.0 == NormalizeEmail(email)
  }

  /** DELETE under every reason. */
  function RemoveTx(db: Db, email: string): Db {
    db.(suppressions := db.suppressions - RowsFor(db, email))
  }

  lemma SizeWithout(m: map<(string, string), SuppressionRow>, keys: set<(string, string)>)
    requires keys <= m.Keys
    ensures |m - keys| == |m| - |keys|
  {
    assert (m - keys).Keys == m.Keys - keys && |m.Keys| == |m| && |(m - keys).Keys| == |m - keys|;
  }

  /** Text in the order of code points. */
  predicate TextLe(a: string, b: string) {
    a == [] || (b != [] && (a[0] < b[0] || (a[0] == b[0] && TextLe(a[1..], b[1..]))))
  }

  /** ORDER BY created_at, reason. */
  predicate NotAfter(db: Db, a: (string, string), b: (string, string))
    requires a in db.suppressions && b in db.suppressions
  {
    var s, t := db.suppressions[a].createdAt, db.suppressions[b].createdAt;
    s < t || (s == t && TextLe(a.1, b.1))
  }

  lemma {:induction false} TextLeTotal(a: string, b: string)
    ensures TextLe(a, b) || TextLe(b, a)
  {
    if a != [] && b != [] { TextLeTotal(a[1..], b[1..]); }
  }

  lemma {:induction false} TextLeTransitive(a: string, b: string, c: string)
    requires TextLe(a, b) && TextLe(b, c)
    ensures TextLe(a, c)
  {
    if a != [] && a[0] == b[0] == c[0] { TextLeTransitive(a[1..], b[1..], c[1..]); }
  }

  lemma NotAfterOrder(db: Db, a: (string, string), b: (string, string), c: (string, string))
    requires a in db.suppressions && b in db.suppressions && c in db.suppressions
    ensures NotAfter(db, a, a) && (NotAfter(db, a, b) || NotAfter(db, b, a))
    ensures NotAfter(db, a, b) && NotAfter(db, b, c) ==> NotAfter(db, a, c)
  {
    hide TextLe;
    TextLeTotal(a.1, a.1);
    TextLeTotal(a.1, b.1);
    if TextLe(a.1, b.1) && TextLe(b.1, c.1) { TextLeTransitive(a.1, b.1, c.1); }
  }

  lemma {:induction false} EarliestRowExists(db: Db, keys: set<(string, string)>)
    requires keys != {} && keys <= db.suppressions.Keys
    ensures exists e :: e in keys && forall k :: k in keys ==> NotAfter(db, e, k)
    decreases |keys|
  {
    hide NotAfter;
    var some :| some in keys;
    var rest := keys - {some};
    NotAfterOrder(db, some, some, some);
    if rest == {} {
      assert keys == {some};
    } else {
      EarliestRowExists(db, rest);
      var e :| e in rest && forall k :: k in rest ==> NotAfter(db, e, k);
      NotAfterOrder(db, some, e, e);
      var best := if NotAfter(db, some, e) then some else e;
      forall k | k in keys ensures NotAfter(db, best, k) {
        if k != some { NotAfterOrder(db, some, e, k); }
      }
    }
  }

  lemma ReportsEarliest(db: Db, email: string, e: (string, string))
    requires e in RowsFor(db, email) && forall k :: k in RowsFor(db, email) ==> NotAfter(db, e, k)
    ensures e.0 == NormalizeEmail(email) && SameAddress(e.0, email) && e in db.suppressions
    ensures forall k :: k in db.suppressions && k.0 == e.0 ==>
              && db.suppressions[e].createdAt <= db.suppressions[k].createdAt
              && (db.suppressions[e].createdAt == db.suppressions[k].createdAt ==> TextLe(e.1, k.1))
  {
    hide NormalizeEmail, SameAddress, TextLe;
    NormalizedIsSame(email);
    forall k | k in db.suppressions && k.0 == e.0 ensures NotAfter(db, e, k) {
      assert k in RowsFor(db, email);
    }
  }

  lemma RowsAreThere(db: Db, email: string)
    ensures RowsFor(db, email) <= db.suppressions.Keys
  {
  }

  lemma RowsDecide(db: Db, email: string)
    ensures RowsFor(db, email) != {} <==> IsSuppressed(db, email)
  {
    hide NormalizeEmail;
    if IsSuppressed(db, email) {
      var k :| k in db.suppressions && k.0 == NormalizeEmail(email);
      assert k in RowsFor(db, email);
    }
  }

  // ---- histories of the list ------------------------------------------------

  datatype Change =
    | Add(email: string, reason: string, sourceEndpoint: string, at: int, diskOk: bool)
    | Remove(email: string, diskOk: bool)

  /** The list after one call; an empty address is refused. */
  function ApplyChange(db: Db, c: Change): Db {
    match c
    case Add(email, reason, endpoint, at, diskOk) =>
      if diskOk && NormalizeEmail(email) != [] then AddTx(db, email, reason, endpoint, at) else db
    case Remove(email, diskOk) => if diskOk then RemoveTx(db, email) else db
  }

  function AfterChanges(db: Db, cs: seq<Change>): Db {
    if cs == [] then db else ApplyChange(AfterChanges(db, cs[..|cs| - 1]), cs[|cs| - 1])
  }

  predicate Adds(c: Change, email: string, reason: string) {
    c.Add? && c.diskOk && TrimSpace(c.email) != [] && SameAddress(c.email, email) && c.reason == reason
  }

  ghost predicate RemovedWithin(cs: seq<Change>, from: nat, to: nat, email: string) {
    exists j :: from <= j < to && j < |cs| && cs[j].Remove? && cs[j].diskOk && SameAddress(cs[j].email, email)
  }

  /** One call and one row. */
  lemma ChangeAndRow(db: Db, c: Change, email: string, reason: string)
    ensures var key, after := (NormalizeEmail(email), reason), ApplyChange(db, c);
            && (Adds(c, email, reason) ==>
                  && key in after.suppressions
                  && after.suppressions[key] == if key in db.suppressions then db.suppressions[key]
                                                else SuppressionRow(c.sourceEndpoint, Unix(c.at)))
            && (c.Remove? && c.diskOk && SameAddress(c.email, email) ==> key !in after.suppressions)
            && (!Adds(c, email, reason) && !(c.Remove? && c.diskOk && SameAddress(c.email, email)) ==>
                  && (key in after.suppressions <==> key in db.suppressions)
                  && (key in db.suppressions ==> after.suppressions[key] == db.suppressions[key]))
  {
    SameAddressSameKey(c.email, email);
    assert |NormalizeEmail(c.email)| == |TrimSpace(c.email)|;
    hide TrimSpace, SameAddress, Unix;
  }

  lemma RemovedLater(cs: seq<Change>, from: nat, email: string)
    requires cs != []
    ensures var n, last := |cs| - 1, cs[|cs| - 1];
            RemovedWithin(cs, from, |cs|, email)
            <==> RemovedWithin(cs[..n], from, n, email) || (from <= n && last.Remove? && last.diskOk && SameAddress(last.email, email))
  {
    hide SameAddress;
    var n := |cs| - 1;
    if RemovedWithin(cs, from, |cs|, email) {
      var j :| from <= j < |cs| && cs[j].Remove? && cs[j].diskOk && SameAddress(cs[j].email, email);
      assert j < n ==> cs[..n][j] == cs[j];
    }
  }

  /** The row of an address and a reason is there exactly when some call added it and none
      removed the address since. */
  lemma {:induction false} RowIsListedIff(db: Db, cs: seq<Change>, email: string, reason: string)
    requires db.suppressions == map[]
    ensures (NormalizeEmail(email), reason) in AfterChanges(db, cs).suppressions
            <==> exists i :: 0 <= i < |cs| && Adds(cs[i], email, reason) && !RemovedWithin(cs, i, |cs|, email)
  {
    hide Adds, RemovedWithin, ApplyChange, NormalizeEmail, SameAddress;
    if cs != [] {
      var n := |cs| - 1;
      var before, c := cs[..n], cs[n];
      RowIsListedIff(db, before, email, reason);
      ChangeAndRow(AfterChanges(db, before), c, email, reason);
      forall i | 0 <= i < |cs| { RemovedLater(cs, i, email); }
      AddIsNoRemoval(c, email, reason);
      LastIsNotBefore(before, n, email);
      if exists i :: 0 <= i < n && Adds(before[i], email, reason) && !RemovedWithin(before, i, n, email) {
        var i :| 0 <= i < n && Adds(before[i], email, reason) && !RemovedWithin(before, i, n, email);
        assert cs[i] == before[i];
      }
      forall i | 0 <= i < n ensures cs[i] == before[i] {}
    }
  }

  lemma AddIsNoRemoval(c: Change, email: string, reason: string)
    ensures Adds(c, email, reason) ==> !c.Remove?
  {
  }

  lemma LastIsNotBefore(cs: seq<Change>, n: nat, email: string)
    requires n == |cs|
    ensures !RemovedWithin(cs, n, n, email)
  {
  }

  /** Neither case nor blanks dodge a suppression: after any calls, an address is suppressed
      exactly when some address that differs from it at most in these was added and not
      removed since. */
  lemma SuppressedIff(db: Db, cs: seq<Change>, email: string)
    requires db.suppressions == map[]
    ensures IsSuppressed(AfterChanges(db, cs), email)
            <==> exists i :: 0 <= i < |cs| && cs[i].Add? && cs[i].diskOk && TrimSpace(cs[i].email) != []
                             && SameAddress(cs[i].email, email) && !RemovedWithin(cs, i, |cs|, email)
  {
    hide NormalizeEmail, SameAddress, RemovedWithin, TrimSpace, AfterChanges;
    forall reason { RowIsListedIff(db, cs, email, reason); }
    var after := AfterChanges(db, cs);
    if IsSuppressed(after, email) {
      var k :| k in after.suppressions && k.0 == NormalizeEmail(email);
      assert k == (NormalizeEmail(email), k.1);
      var i :| 0 <= i < |cs| && Adds(cs[i], email, k.1) && !RemovedWithin(cs, i, |cs|, email);
    }
    forall i | 0 <= i < |cs| && cs[i].Add? && cs[i].diskOk && TrimSpace(cs[i].email) != []
               && SameAddress(cs[i].email, email) && !RemovedWithin(cs, i, |cs|, email)
      ensures IsSuppressed(after, email)
    {
      assert Adds(cs[i], email, cs[i].reason);
      assert (NormalizeEmail(email), cs[i].reason) in after.suppressions;
    }
  }

  /** The first observation wins: a row is as it was first added since the address was last
      removed, whatever was added afterwards. */
  lemma {:induction false} FirstObservationWins(db: Db, cs: seq<Change>, email: string, reason: string, i: nat)
    requires db.suppressions == map[] && i < |cs| && Adds(cs[i], email, reason) && !RemovedWithin(cs, i, |cs|, email)
    requires forall j :: 0 <= j < i && Adds(cs[j], email, reason) ==> RemovedWithin(cs, j, i, email)
    ensures var key, after := (NormalizeEmail(email), reason), AfterChanges(db, cs);
            key in after.suppressions && after.suppressions[key] == SuppressionRow(cs[i].sourceEndpoint, Unix(cs[i].at))
  {
    hide Adds, RemovedWithin, ApplyChange, NormalizeEmail, SameAddress, Unix;
    var n := |cs| - 1;
    var before, c := cs[..n], cs[n];
    ChangeAndRow(AfterChanges(db, before), c, email, reason);
    RemovedLater(cs, i, email);
    forall j | 0 <= j < i { SameWithin(cs, n, j, i, email); }
    if i < n {
      FirstObservationWins(db, before, email, reason, i);
    } else {
      RowIsListedIff(db, before, email, reason);
    }
  }

  lemma SameWithin(cs: seq<Change>, n: nat, from: nat, to: nat, email: string)
    requires to <= n <= |cs|
    ensures RemovedWithin(cs[..n], from, to, email) <==> RemovedWithin(cs, from, to, email)
  {
    hide SameAddress;
    if RemovedWithin(cs, from, to, email) {
      var j :| from <= j < to && cs[j].Remove? && cs[j].diskOk && SameAddress(cs[j].email, email);
      assert cs[..n][j] == cs[j];
    }
  }
}
