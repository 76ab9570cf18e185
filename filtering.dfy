/**
 The sidebar filter: two independent equality selectors, one on the category
 and one on the level, each switched off by the sentinel "全部" ("all"), and
 the option lists the two selectors offer.
 */
module Filtering {
  import opened Store

  /** The sentinel that switches a selector off. */
  const All: string := "全部"

  /** The category selector: off at "全部", otherwise it keeps exactly the records of that category. */
  function ByCategory(s: seq<Record>, c: string): (r: seq<Record>)
    ensures c == All ==> r == s
    ensures forall x :: x in r <==> x in s && (c == All || x.category == c)
  {
    if c == All then s else Where(s, CategoryIs(c))
  }

  /** The level selector: off at "全部", otherwise it keeps exactly the records of that level. */
  function ByLevel(s: seq<Record>, l: string): (r: seq<Record>)
    ensures l == All ==> r == s
    ensures forall x :: x in r <==> x in s && (l == All || x.level == l)
  {
    if l == All then s else Where(s, LevelIs(l))
  }

  /** The view: the category selector first, then the level selector. */
  function Filter(s: seq<Record>, c: string, l: string): (r: seq<Record>)
    ensures |r| <= |s|
    ensures forall x :: x in r <==> x in s && Selected(x, c, l)
  {
    ByLevel(ByCategory(s, c), l)
  }

  /** A record passes the selectors `c` and `l`. */
  predicate Selected(x: Record, c: string, l: string) {
    (c == All || x.category == c) && (l == All || x.level == l)
  }

  /**
   The view holds exactly the records that pass both selectors, each as often
   as in the collection, in the collection's order; with both selectors off
   it is the collection itself.
   */
  lemma FilterSpec(s: seq<Record>, c: string, l: string)
    ensures IsSubsequence(Filter(s, c, l), s)
    ensures forall x :: x in Filter(s, c, l) <==> x in s && Selected(x, c, l)
    ensures forall x :: multiset(Filter(s, c, l))[x] == if Selected(x, c, l) then multiset(s)[x] else 0
    ensures c == All && l == All ==> Filter(s, c, l) == s
  {
    var t := ByCategory(s, c);
    if c != All {
      WhereIsSubsequence(s, CategoryIs(c));
    } else {
      SelfSubsequence(s);
    }
    if l != All {
      WhereIsSubsequence(t, LevelIs(l));
      SubsequenceTransitive(Filter(s, c, l), t, s);
    }
    forall x ensures multiset(Filter(s, c, l))[x] == if Selected(x, c, l) then multiset(s)[x] else 0 {
      if c != All { WhereCounts(s, CategoryIs(c), x); }
      if l != All { WhereCounts(t, LevelIs(l), x); }
    }
  }

  lemma {:induction false} SelfSubsequence(s: seq<Record>)
    ensures IsSubsequence(s, s)
  {
    if s != [] {
      SelfSubsequence(s[1..]);
    }
  }

  /** Applying the level selector first gives the same view. */
  lemma FilterOrderIrrelevant(s: seq<Record>, c: string, l: string)
    ensures ByCategory(ByLevel(s, l), c) == Filter(s, c, l)
  {
    if c != All && l != All {
      WhereCommutes(s, CategoryIs(c), LevelIs(l));
    }
  }

  // ---------------------------------------------------------------------------
  // The selectors' option lists

  ghost predicate Distinct(xs: seq<string>) {
    forall i, j :: 0 <= i < j < |xs| ==> xs[i] != xs[j]
  }

  /** The distinct values of `xs`, in the order of their first appearance. */
  function Unique(xs: seq<string>): (u: seq<string>)
    ensures Distinct(u)
    ensures forall v :: v in u <==> v in xs
  {
    if xs == [] then []
    else
      var u := Unique(xs[..|xs| - 1]);
      assert forall v :: v in xs <==> v in xs[..|xs| - 1] || v == xs[|xs| - 1] by {
        assert xs == xs[..|xs| - 1] + [xs[|xs| - 1]];
      }
      if xs[|xs| - 1] in u then u else u + [xs[|xs| - 1]]
  }

  /** The values of `xs` other than the empty string, in order. */
  function NonEmpty(xs: seq<string>): (r: seq<string>)
    ensures forall v :: v in r <==> v in xs && v != ""
    ensures Distinct(xs) ==> Distinct(r)
  {
    if xs == [] then []
    else
      var rest := NonEmpty(xs[1..]);
      assert Distinct(xs) ==> Distinct(xs[1..]) && xs[0] !in xs[1..];
      if xs[0] != "" then [xs[0]] + rest else rest
  }

  function CategoryColumn(s: seq<Record>): (col: seq<string>)
    ensures forall v :: v in col <==> exists x :: x in s && x.category == v
  {
    if s == [] then [] else [s[0].category] + CategoryColumn(s[1..])
  }

  function LevelColumn(s: seq<Record>): (col: seq<string>)
    ensures forall v :: v in col <==> exists x :: x in s && x.level == v
  {
    if s == [] then [] else [s[0].level] + LevelColumn(s[1..])
  }

  /**
   The category selector offers "全部" and then every category present in
   the collection, once each.
   */
  function CategoryOptions(s: seq<Record>): (opts: seq<string>)
    ensures |opts| >= 1 && opts[0] == All
    ensures Distinct(opts[1..])
    ensures forall v :: v in opts[1..] <==> exists x :: x in s && x.category == v
  {
    [All] + Unique(CategoryColumn(s))
  }

  /**
   The level selector offers "全部" and then every non-empty level present in
   the collection, once each; it never offers the empty level.
   */
  function LevelOptions(s: seq<Record>): (opts: seq<string>)
    ensures |opts| >= 1 && opts[0] == All
    ensures "" !in opts
    ensures Distinct(opts[1..])
    ensures forall v :: v in opts[1..] <==> v != "" && exists x :: x in s && x.level == v
  {
    [All] + NonEmpty(Unique(LevelColumn(s)))
  }

  /** Every option a selector offers, chosen alone, leaves at least one record in view. */
  lemma OptionsSelectSomething(s: seq<Record>, c: string, l: string)
    ensures c in CategoryOptions(s)[1..] ==> Filter(s, c, All) != []
    ensures l in LevelOptions(s)[1..] ==> Filter(s, All, l) != []
  {
    FilterSpec(s, c, All);
    FilterSpec(s, All, l);
    if c in CategoryOptions(s)[1..] {
      var x :| x in s && x.category == c;
      assert x in Filter(s, c, All);
    }
    if l in LevelOptions(s)[1..] {
      var x :| x in s && x.level == l;
      assert x in Filter(s, All, l);
    }
  }
}
