/**
 The record store of the personal-records manager: the record type, the
 boolean masks the application selects rows with, and the two operations that
 change the collection, adding a record from the form and deleting a record
 by id. Both build a new collection and leave their input untouched, as the
 application does when it rebinds its table.
 */
module Store {

  /** One stored record: the seven columns of the table, in their canonical order. */
  datatype Record = Record(
    id: int,
    title: string,
    category: string,
    level: string,
    organization: string,
    notes: string,
    createdAt: string)

  /** The five fields the add form yields. */
  datatype Entry = Entry(
    title: string,
    category: string,
    level: string,
    organization: string,
    notes: string)

  /** The choices the add form offers for the category and the level. */
  const Categories: seq<string> := ["荣誉", "竞赛", "证书", "教育经历", "实践经历", "项目经历", "其他"]
  const Levels: seq<string> := ["", "国家级", "省级", "市级", "校级", "院级"]

  /** What a submission of the add form reports: the id it stored, or the missing title. */
  datatype Status = Saved(id: int) | TitleMissing

  /** The collection after a submission, with what the submission reported. */
  datatype AddResult = AddResult(records: seq<Record>, status: Status)

  /** The equality masks the application selects rows with. */
  datatype Mask = IdIsNot(id: int) | CategoryIs(category: string) | LevelIs(level: string)

  predicate Keeps(m: Mask, r: Record) {
    match m
    case IdIsNot(id) => r.id != id
    case CategoryIs(c) => r.category == c
    case LevelIs(l) => r.level == l
  }

  /** `a` is `b` with some records dropped and the rest in their order. */
  ghost predicate IsSubsequence(a: seq<Record>, b: seq<Record>)
    decreases |b|
  {
    a == [] || (b != [] && ((a[0] == b[0] && IsSubsequence(a[1..], b[1..])) || IsSubsequence(a, b[1..])))
  }

  /** The rows of `s` the mask keeps, in their order. */
  function Where(s: seq<Record>, m: Mask): (r: seq<Record>)
    ensures |r| <= |s|
    ensures forall x :: x in r <==> x in s && Keeps(m, x)
  {
    if s == [] then []
    else if Keeps(m, s[0]) then [s[0]] + Where(s[1..], m)
    else Where(s[1..], m)
  }

  lemma {:induction false} WhereIsSubsequence(s: seq<Record>, m: Mask)
    ensures IsSubsequence(Where(s, m), s)
  {
    if s != [] {
      WhereIsSubsequence(s[1..], m);
      if Keeps(m, s[0]) {
        assert Where(s, m)[1..] == Where(s[1..], m);
      }
    }
  }

  /** A mask keeps each kept record as often as it occurs and drops every other one. */
  lemma {:induction false} WhereCounts(s: seq<Record>, m: Mask, x: Record)
    ensures multiset(Where(s, m))[x] == if Keeps(m, x) then multiset(s)[x] else 0
  {
    if s != [] {
      WhereCounts(s[1..], m, x);
      assert s == [s[0]] + s[1..];
    }
  }

  lemma {:induction false} WhereAppend(a: seq<Record>, b: seq<Record>, m: Mask)
    ensures Where(a + b, m) == Where(a, m) + Where(b, m)
  {
    if a == [] {
      assert a + b == b;
    } else {
      assert (a + b)[0] == a[0];
      assert (a + b)[1..] == a[1..] + b;
      WhereAppend(a[1..], b, m);
    }
  }

  /** A mask that keeps every record of `s` returns `s` itself. */
  lemma {:induction false} WhereKeepsAll(s: seq<Record>, m: Mask)
    requires forall x :: x in s ==> Keeps(m, x)
    ensures Where(s, m) == s
  {
    if s != [] {
      assert s[0] in s;
      WhereKeepsAll(s[1..], m);
    }
  }

  /** Two masks applied one after the other give the same rows in either order. */
  lemma {:induction false} WhereCommutes(s: seq<Record>, m1: Mask, m2: Mask)
    ensures Where(Where(s, m1), m2) == Where(Where(s, m2), m1)
  {
    if s != [] {
      WhereCommutes(s[1..], m1, m2);
    }
  }

  lemma WhereIdempotent(s: seq<Record>, m: Mask)
    ensures Where(Where(s, m), m) == Where(s, m)
  {
    WhereKeepsAll(Where(s, m), m);
  }

  lemma {:induction false} SubsequenceTransitive(a: seq<Record>, b: seq<Record>, c: seq<Record>)
    requires IsSubsequence(a, b) && IsSubsequence(b, c)
    ensures IsSubsequence(a, c)
    decreases |c|
  {
    if a != [] {
      if b[0] == c[0] && IsSubsequence(b[1..], c[1..]) {
        if a[0] == b[0] && IsSubsequence(a[1..], b[1..]) {
          SubsequenceTransitive(a[1..], b[1..], c[1..]);
        } else {
          SubsequenceTransitive(a, b[1..], c[1..]);
        }
      } else {
        SubsequenceTransitive(a, b, c[1..]);
      }
    }
  }

  // ---------------------------------------------------------------------------
  // Ids

  /** The largest id in a non-empty collection. */
  function MaxId(s: seq<Record>): (m: int)
    requires s != []
    ensures forall x :: x in s ==> x.id <= m
    ensures exists x :: x in s && x.id == m
  {
    if |s| == 1 then s[0].id
    else
      var rest := MaxId(s[1..]);
      assert s[1..][0] in s;
      if s[0].id >= rest then s[0].id else rest
  }

  /** The id the next added record receives: 1 for an empty collection, else the largest id plus 1. */
  function NextId(s: seq<Record>): (n: int)
    ensures s == [] ==> n == 1
    ensures forall x :: x in s ==> x.id < n
    ensures s != [] ==> exists x :: x in s && x.id == n - 1
  {
    if s == [] then 1 else MaxId(s) + 1
  }

  /** The record an accepted submission appends. */
  function NewRecord(id: int, e: Entry, createdAt: string): Record {
    Record(id, e.title, e.category, e.level, e.organization, e.notes, createdAt)
  }

  /**
   Submits the add form. An empty title is refused and the collection comes
   back unchanged; any other title (a title of spaces included) is stored as
   a new last record whose id exceeds every id in the collection.
   */
  function Add(s: seq<Record>, e: Entry, createdAt: string): (r: AddResult)
    ensures e.title == "" ==> r == AddResult(s, TitleMissing)
    ensures e.title != "" ==>
      && r.status.Saved?
      && |r.records| == |s| + 1
      && r.records[..|s|] == s
      && r.records[|s|] == NewRecord(r.status.id, e, createdAt)
      && (s == [] ==> r.status.id == 1)
      && (forall x :: x in s ==> x.id < r.status.id)
      && (s != [] ==> exists x :: x in s && x.id + 1 == r.status.id)
  {
    if e.title == "" then AddResult(s, TitleMissing)
    else
      var id := NextId(s);
      AddResult(s + [NewRecord(id, e, createdAt)], Saved(id))
  }

  /** Deletes every record carrying the given id; the others stay, in order. */
  function Delete(s: seq<Record>, id: int): (r: seq<Record>)
    ensures forall x :: x in r <==> x in s && x.id != id
  {
    Where(s, IdIsNot(id))
  }

  lemma DeleteIsSubsequence(s: seq<Record>, id: int)
    ensures IsSubsequence(Delete(s, id), s)
  {
    WhereIsSubsequence(s, IdIsNot(id));
  }

  /** Deleting an id no record carries changes nothing. */
  lemma DeleteAbsent(s: seq<Record>, id: int)
    requires forall x :: x in s ==> x.id != id
    ensures Delete(s, id) == s
  {
    WhereKeepsAll(s, IdIsNot(id));
  }

  /** Deleting the same id twice is deleting it once. */
  lemma DeleteIdempotent(s: seq<Record>, id: int)
    ensures Delete(Delete(s, id), id) == Delete(s, id)
  {
    WhereIdempotent(s, IdIsNot(id));
  }

  ghost predicate UniqueIds(s: seq<Record>) {
    forall i, j :: 0 <= i < |s| && 0 <= j < |s| && i != j ==> s[i].id != s[j].id
  }

  /** A collection is the records before position k, the record at k, and the records after it. */
  lemma SplitAt(s: seq<Record>, k: nat)
    requires k < |s|
    ensures s == s[..k] + [s[k]] + s[k + 1..]
  {
    assert s[..k + 1] == s[..k] + [s[k]];
    assert s == s[..k + 1] + s[k + 1..];
  }

  /** With unique ids, no record before or after position k carries the id of the record at k. */
  lemma OthersKeepTheirIds(s: seq<Record>, k: nat)
    requires UniqueIds(s) && k < |s|
    ensures Where(s[..k], IdIsNot(s[k].id)) == s[..k]
    ensures Where(s[k + 1..], IdIsNot(s[k].id)) == s[k + 1..]
  {
    var id := s[k].id;
    forall x | x in s[..k] ensures Keeps(IdIsNot(id), x) {
      var i :| 0 <= i < k && s[..k][i] == x;
      assert s[i] == x;
    }
    WhereKeepsAll(s[..k], IdIsNot(id));
    forall x | x in s[k + 1..] ensures Keeps(IdIsNot(id), x) {
      var i :| 0 <= i < |s| - k - 1 && s[k + 1..][i] == x;
      assert s[k + 1 + i] == x;
    }
    WhereKeepsAll(s[k + 1..], IdIsNot(id));
  }

  /** With unique ids, deleting the id of the record at position k removes exactly that record. */
  lemma DeleteRemovesOne(s: seq<Record>, k: nat)
    requires UniqueIds(s) && k < |s|
    ensures Delete(s, s[k].id) == s[..k] + s[k + 1..]
    ensures |Delete(s, s[k].id)| == |s| - 1
  {
    var m := IdIsNot(s[k].id);
    var before, after := s[..k], s[k + 1..];
    SplitAt(s, k);
    WhereAppend(before + [s[k]], after, m);
    WhereAppend(before, [s[k]], m);
    assert Where([s[k]], m) == [];
    OthersKeepTheirIds(s, k);
  }

  // ---------------------------------------------------------------------------
  // The invariant of every collection built by the form and the delete button

  predicate FormChoice(e: Entry) {
    e.category in Categories && e.level in Levels
  }

  /** Ids strictly increase along the collection. */
  ghost predicate IncreasingIds(s: seq<Record>) {
    forall i, j :: 0 <= i < j < |s| ==> s[i].id < s[j].id
  }

  /** Ids are positive, titles are not empty, category and level are among the form's choices. */
  ghost predicate FieldsValid(s: seq<Record>) {
    forall x :: x in s ==> x.id >= 1 && x.title != "" && x.category in Categories && x.level in Levels
  }

  ghost predicate WellFormed(s: seq<Record>) {
    IncreasingIds(s) && FieldsValid(s)
  }

  lemma WellFormedUniqueIds(s: seq<Record>)
    requires WellFormed(s)
    ensures UniqueIds(s)
  {
    forall i, j | 0 <= i < |s| && 0 <= j < |s| && i != j ensures s[i].id != s[j].id {
      if i < j { assert s[i].id < s[j].id; } else { assert s[j].id < s[i].id; }
    }
  }

  /** In a well-formed collection the next id is the last record's id plus 1. */
  lemma NextIdFollowsLast(s: seq<Record>)
    requires WellFormed(s) && s != []
    ensures NextId(s) == s[|s| - 1].id + 1
  {
    var last := s[|s| - 1];
    assert last in s;
    forall x | x in s ensures x.id <= last.id {
      var i :| 0 <= i < |s| && s[i] == x;
      assert i == |s| - 1 || s[i].id < last.id;
    }
    var m := MaxId(s);
    var y :| y in s && y.id == m;
  }

  lemma IncreasingSnoc(s: seq<Record>, x: Record)
    requires IncreasingIds(s)
    requires forall y :: y in s ==> y.id < x.id
    ensures IncreasingIds(s + [x])
  {
    var t := s + [x];
    forall i, j | 0 <= i < j < |t| ensures t[i].id < t[j].id {
      assert t[i] == s[i];
      if j < |s| {
        assert t[j] == s[j];
      } else {
        assert s[i] in s;
      }
    }
  }

  lemma IncreasingCons(x: Record, s: seq<Record>)
    requires IncreasingIds(s)
    requires forall y :: y in s ==> x.id < y.id
    ensures IncreasingIds([x] + s)
  {
    var t := [x] + s;
    forall i, j | 0 <= i < j < |t| ensures t[i].id < t[j].id {
      assert t[j] == s[j - 1];
      if i == 0 {
        assert s[j - 1] in s;
      } else {
        assert t[i] == s[i - 1];
      }
    }
  }

  lemma AddPreservesWellFormed(s: seq<Record>, e: Entry, createdAt: string)
    requires WellFormed(s) && FormChoice(e)
    ensures WellFormed(Add(s, e, createdAt).records)
  {
    var r := Add(s, e, createdAt);
    if e.title != "" {
      var n := NewRecord(r.status.id, e, createdAt);
      assert r.records == s + [n];
      IncreasingSnoc(s, n);
      if s != [] {
        assert s[0] in s;
      }
    }
  }

  lemma {:induction false} WherePreservesWellFormed(s: seq<Record>, m: Mask)
    requires WellFormed(s)
    ensures WellFormed(Where(s, m))
  {
    if s != [] {
      assert IncreasingIds(s[1..]) by {
        forall i, j | 0 <= i < j < |s| - 1 ensures s[1..][i].id < s[1..][j].id {
          assert s[1..][i] == s[i + 1] && s[1..][j] == s[j + 1];
        }
      }
      assert forall y :: y in s[1..] ==> y in s;
      WherePreservesWellFormed(s[1..], m);
      if Keeps(m, s[0]) {
        forall y | y in Where(s[1..], m) ensures s[0].id < y.id {
          var k :| 0 <= k < |s| - 1 && s[1..][k] == y;
          assert s[k + 1] == y;
        }
        IncreasingCons(s[0], Where(s[1..], m));
      }
    }
  }

  lemma DeletePreservesWellFormed(s: seq<Record>, id: int)
    requires WellFormed(s)
    ensures WellFormed(Delete(s, id))
  {
    WherePreservesWellFormed(s, IdIsNot(id));
  }

  /**
   Ids are the largest id plus 1, not a running counter: deleting the record
   that was just added makes the next submission receive the same id again.
   */
  lemma DeletedNewestIdIsReused(s: seq<Record>, e: Entry, t: string, e2: Entry, t2: string)
    requires e.title != "" && e2.title != ""
    ensures
      var first := Add(s, e, t);
      Add(Delete(first.records, first.status.id), e2, t2).status == first.status
  {
    var first := Add(s, e, t);
    var id := first.status.id;
    assert first.records == s + [NewRecord(id, e, t)];
    WhereAppend(s, [NewRecord(id, e, t)], IdIsNot(id));
    DeleteAbsent(s, id);
    assert Delete(first.records, id) == s;
  }

  // ---------------------------------------------------------------------------
  // Sessions: the collection after a run of form submissions and deletions

  datatype Action = Submit(entry: Entry, createdAt: string) | Remove(id: int)

  /**
   One user action: a form submission or a press of a delete button. A
   submission without a title changes nothing; any other submission keeps the
   collection as the prefix and appends the submitted record under the next
   id. A deletion keeps exactly the records with another id.
   */
  function Step(s: seq<Record>, a: Action): (r: seq<Record>)
    ensures |r| <= |s| + 1
    ensures a.Submit? && a.entry.title == "" ==> r == s
    ensures a.Submit? && a.entry.title != "" ==>
      |r| == |s| + 1 && r[..|s|] == s && r[|s|] == NewRecord(NextId(s), a.entry, a.createdAt)
    ensures forall x :: x in r ==> x in s || (a.Submit? && x == NewRecord(x.id, a.entry, a.createdAt))
    ensures a.Remove? ==> forall x :: x in r <==> x in s && x.id != a.id
  {
    match a
    case Submit(e, t) => Add(s, e, t).records
    case Remove(id) => Delete(s, id)
  }

  /**
   The collection after the actions, starting from an empty one: it has at
   most one record per action, and each of its records carries the fields and
   the timestamp of one of the submissions.
   */
  function Replay(actions: seq<Action>): (r: seq<Record>)
    ensures |r| <= |actions|
    ensures forall x :: x in r ==>
      exists a :: a in actions && a.Submit? && x == NewRecord(x.id, a.entry, a.createdAt)
  {
    if actions == [] then []
    else
      var init := actions[..|actions| - 1];
      var last := actions[|actions| - 1];
      assert forall a :: a in init ==> a in actions;
      assert last in actions;
      Step(Replay(init), last)
  }

  /** Every collection a session builds from the form's choices is well formed. */
  lemma {:induction false} ReplayWellFormed(actions: seq<Action>)
    requires forall a :: a in actions && a.Submit? ==> FormChoice(a.entry)
    ensures WellFormed(Replay(actions))
    ensures UniqueIds(Replay(actions))
  {
    if actions != [] {
      var init := actions[..|actions| - 1];
      var last := actions[|actions| - 1];
      assert forall a :: a in init ==> a in actions;
      ReplayWellFormed(init);
      match last
      case Submit(e, t) =>
        assert last in actions;
        AddPreservesWellFormed(Replay(init), e, t);
      case Remove(id) =>
        DeletePreservesWellFormed(Replay(init), id);
    }
    WellFormedUniqueIds(Replay(actions));
  }
}
