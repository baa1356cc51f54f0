/** `getCommonSkills`: the skills shown on the swarm overlay. Every developer's skills
    are flattened into one list, occurrences of each exact string are counted in an
    accumulator that remembers the order in which skills first appeared, the
    (skill, count) pairs are sorted by count, highest first, with a stable sort, and
    the names of the first six are kept. */
module CommonSkills {
  import opened Base
  import opened Developers

  /** How many skills the overlay shows at most. */
  const TopSkillLimit: nat := 6

  /** `developers.flatMap(d => d.skills)`. */
  function AllSkills(devs: seq<Developer>): (all: seq<string>) {
    if devs == [] then [] else devs[0].skills + AllSkills(devs[1..])
  }

  /** A skill occurs in the flattened list exactly when some developer lists it. */
  lemma {:induction false} AllSkillsMembers(devs: seq<Developer>, x: string)
    ensures x in AllSkills(devs) <==> exists k :: 0 <= k < |devs| && x in devs[k].skills
  {
    if devs != [] {
      AllSkillsMembers(devs[1..], x);
      if x in AllSkills(devs[1..]) {
        var k :| 0 <= k < |devs[1..]| && x in devs[1..][k].skills;
        assert x in devs[k + 1].skills;
      }
      if exists k :: 0 <= k < |devs| && x in devs[k].skills {
        var k :| 0 <= k < |devs| && x in devs[k].skills;
        if k > 0 {
          assert x in devs[1..][k - 1].skills;
        }
      }
    }
  }

  /** How often `x` occurs in `s`. */
  function Occurrences(s: seq<string>, x: string): nat {
    multiset(s)[x]
  }

  /** The position of the first occurrence of `x` in `s`, or `|s|` when there is none. */
  function FirstIndex(s: seq<string>, x: string): (i: nat)
    ensures i <= |s|
    ensures i < |s| <==> x in s
    ensures i < |s| ==> s[i] == x
    ensures forall j :: 0 <= j < i ==> s[j] != x
  {
    if s == [] then 0 else if s[0] == x then 0 else 1 + FirstIndex(s[1..], x)
  }

  /** Appending to a list does not move the first occurrence of anything already in it. */
  lemma FirstIndexAppend(s: seq<string>, y: string, x: string)
    ensures x in s ==> FirstIndex(s + [y], x) == FirstIndex(s, x)
    ensures x !in s && x == y ==> FirstIndex(s + [y], x) == |s|
  {
    var i := FirstIndex(s + [y], x);
    var j := FirstIndex(s, x);
    if x in s {
      assert (s + [y])[j] == x;
    } else if x == y {
      assert (s + [y])[|s|] == x;
      assert forall k :: 0 <= k < |s| ==> (s + [y])[k] != x;
    }
  }

  /** One property of the accumulator: a skill and the number of times it was seen. */
  datatype Entry = Entry(skill: string, count: nat)

  /** Where `skill` sits in the accumulator, if it has been seen. */
  function KeyIndex(t: seq<Entry>, skill: string): (r: Option<nat>)
    ensures r.Some? ==> r.value < |t| && t[r.value].skill == skill
    ensures r.None? ==> forall i :: 0 <= i < |t| ==> t[i].skill != skill
  {
    if t == [] then None
    else if t[0].skill == skill then Some(0)
    else match KeyIndex(t[1..], skill)
      case None => None
      case Some(i) => Some(i + 1)
  }

  /** `acc[skill] = (acc[skill] || 0) + 1`: a seen skill keeps its place and counts one
      more; a new key is added after all existing ones with count 1 (the property order
      of a plain object for keys that are not integer-like). */
  function Bump(t: seq<Entry>, skill: string): (r: seq<Entry>) {
    match KeyIndex(t, skill)
    case Some(i) => t[i := Entry(skill, t[i].count + 1)]
    case None => t + [Entry(skill, 1)]
  }

  /** The accumulator after `allSkills.reduce(...)` has folded over `s` from left to right. */
  function Tally(s: seq<string>): (t: seq<Entry>) {
    if s == [] then [] else Bump(Tally(s[..|s| - 1]), s[|s| - 1])
  }

  /** Each skill has at most one entry. */
  ghost predicate DistinctSkills(t: seq<Entry>) {
    forall i, j :: 0 <= i < j < |t| ==> t[i].skill != t[j].skill
  }

  /** Each entry's skill occurs in `s`, and its count is the number of occurrences. */
  ghost predicate CountsOf(t: seq<Entry>, s: seq<string>) {
    forall i :: 0 <= i < |t| ==> t[i].skill in s && t[i].count == Occurrences(s, t[i].skill)
  }

  /** Every skill of `s` has an entry. */
  ghost predicate Covers(t: seq<Entry>, s: seq<string>) {
    forall x {:trigger KeyIndex(t, x)} :: x in s ==> KeyIndex(t, x).Some?
  }

  /** The entries are in the order in which their skills first occur in `s`. */
  ghost predicate InFirstSeenOrder(t: seq<Entry>, s: seq<string>) {
    forall i, j :: 0 <= i < j < |t| ==> FirstIndex(s, t[i].skill) < FirstIndex(s, t[j].skill)
  }

  /** What the counting step promises about its accumulator `t` for the list `s`: one
      entry per distinct skill of `s`, each with its number of occurrences, in the order
      in which the skills first occur in `s`. */
  ghost predicate IsTallyOf(t: seq<Entry>, s: seq<string>) {
    DistinctSkills(t) && CountsOf(t, s) && Covers(t, s) && InFirstSeenOrder(t, s)
  }

  /** The fold computes a correct tally. */
  lemma {:induction false} TallyIsTally(s: seq<string>)
    ensures IsTallyOf(Tally(s), s)
    decreases |s|
  {
    if s != [] {
      var p, x := s[..|s| - 1], s[|s| - 1];
      assert s == p + [x];
      TallyIsTally(p);
      var t := Tally(p);
      BumpDistinct(t, x);
      BumpCounts(t, p, x);
      BumpCovers(t, p, x);
      BumpOrder(t, p, x);
    }
  }

  lemma BumpDistinct(t: seq<Entry>, x: string)
    requires DistinctSkills(t)
    ensures DistinctSkills(Bump(t, x))
  {
  }

  lemma BumpCounts(t: seq<Entry>, p: seq<string>, x: string)
    requires DistinctSkills(t) && CountsOf(t, p) && Covers(t, p)
    ensures CountsOf(Bump(t, x), p + [x])
  {
    var s := p + [x];
    assert multiset(s) == multiset(p) + multiset{x};
    match KeyIndex(t, x)
    case Some(k) =>
      var u := t[k := Entry(x, t[k].count + 1)];
      forall i | 0 <= i < |u| ensures u[i].skill in s && u[i].count == Occurrences(s, u[i].skill) {
        if i != k {
          assert t[i].skill != x;
        }
      }
    case None =>
      var u := t + [Entry(x, 1)];
      assert x !in p;
      forall i | 0 <= i < |u| ensures u[i].skill in s && u[i].count == Occurrences(s, u[i].skill) {
        if i < |t| {
          assert u[i] == t[i];
        }
      }
  }

  lemma BumpCovers(t: seq<Entry>, p: seq<string>, x: string)
    requires Covers(t, p)
    ensures Covers(Bump(t, x), p + [x])
  {
    var u := Bump(t, x);
    forall y | y in p + [x] ensures KeyIndex(u, y).Some? {
      var m := if y == x then (if KeyIndex(t, x).Some? then KeyIndex(t, x).value else |t|)
               else KeyIndex(t, y).value;
      assert u[m].skill == y;
    }
  }

  lemma BumpOrder(t: seq<Entry>, p: seq<string>, x: string)
    requires CountsOf(t, p) && Covers(t, p) && InFirstSeenOrder(t, p)
    ensures InFirstSeenOrder(Bump(t, x), p + [x])
  {
    var u := Bump(t, x);
    assert forall i :: 0 <= i < |t| ==> u[i].skill == t[i].skill;
    if KeyIndex(t, x).None? {
      assert x !in p;
      FirstIndexAppend(p, x, x);
      assert u[|t|].skill == x;
    }
    forall i, j | 0 <= i < j < |u| ensures FirstIndex(p + [x], u[i].skill) < FirstIndex(p + [x], u[j].skill) {
      FirstIndexAppend(p, x, t[i].skill);
      if j < |t| {
        FirstIndexAppend(p, x, t[j].skill);
      }
    }
  }

  /** The counting loop of `getCommonSkills`: the accumulator is updated in place, one
      skill at a time. */
  method CountSkills(all: seq<string>) returns (counts: seq<Entry>)
    ensures counts == Tally(all)
    ensures IsTallyOf(counts, all)
  {
    counts := [];
    for i := 0 to |all|
      invariant counts == Tally(all[..i])
    {
      assert all[..i + 1][..i] == all[..i];
      var skill := all[i];
      match KeyIndex(counts, skill) {
        case Some(k) =>
          counts := counts[k := Entry(skill, counts[k].count + 1)];
        case None =>
          counts := counts + [Entry(skill, 1)];
      }
    }
    assert all[..|all|] == all;
    TallyIsTally(all);
  }

  /** Placing `e` into a list already sorted by count, highest first: after every entry
      whose count is at least `e`'s, so that `e` stays behind earlier equal counts. */
  function Insert(e: Entry, t: seq<Entry>): (r: seq<Entry>)
    ensures |r| == |t| + 1
  {
    if t == [] then [e]
    else if t[0].count >= e.count then [t[0]] + Insert(e, t[1..])
    else [e] + t
  }

  /** `.sort(([, a], [, b]) => b - a)`: `Array.prototype.sort` is stable, so this is the
      stable sort by count, highest first, written as an insertion sort that takes the
      entries in their original order. */
  function SortByCountDesc(t: seq<Entry>): (r: seq<Entry>)
    ensures |r| == |t|
  {
    if t == [] then [] else Insert(t[|t| - 1], SortByCountDesc(t[..|t| - 1]))
  }

  lemma {:induction false} InsertPermutes(e: Entry, t: seq<Entry>)
    ensures multiset(Insert(e, t)) == multiset(t) + multiset{e}
  {
    if t == [] {
      assert Insert(e, t) == [e];
    } else if t[0].count >= e.count {
      InsertPermutes(e, t[1..]);
      assert t == [t[0]] + t[1..];
      ConsPermutes(t[0], t[1..], Insert(e, t[1..]), e);
    } else {
      assert Insert(e, t) == [e] + t;
      assert multiset([e] + t) == multiset{e} + multiset(t);
    }
  }

  /** Putting the same entry in front of a list and of its rearrangement with `e`
      added. */
  lemma ConsPermutes(x: Entry, u: seq<Entry>, w: seq<Entry>, e: Entry)
    requires multiset(w) == multiset(u) + multiset{e}
    ensures multiset([x] + w) == multiset([x] + u) + multiset{e}
  {
    assert multiset([x] + w) == multiset{x} + multiset(w);
    assert multiset([x] + u) == multiset{x} + multiset(u);
  }

  /** Sorting rearranges the entries and neither adds nor drops any. */
  lemma {:induction false} SortPermutes(t: seq<Entry>)
    ensures multiset(SortByCountDesc(t)) == multiset(t)
    ensures |SortByCountDesc(t)| == |t|
  {
    if t != [] {
      var p, e := t[..|t| - 1], t[|t| - 1];
      SortPermutes(p);
      InsertPermutes(e, SortByCountDesc(p));
      assert t == p + [e];
      assert multiset(t) == multiset(p) + multiset{e};
    }
  }

  /** The order the overlay ranks skills by: higher count first, and among equal counts
      the one that occurs first in the flattened list. */
  predicate Precedes(all: seq<string>, a: Entry, b: Entry) {
    a.count > b.count || (a.count == b.count && FirstIndex(all, a.skill) < FirstIndex(all, b.skill))
  }

  ghost predicate Ranked(all: seq<string>, u: seq<Entry>) {
    forall i, j :: 0 <= i < j < |u| ==> Precedes(all, u[i], u[j])
  }

  lemma {:induction false} InsertRanked(all: seq<string>, e: Entry, u: seq<Entry>)
    requires Ranked(all, u)
    requires forall k :: 0 <= k < |u| ==> FirstIndex(all, u[k].skill) < FirstIndex(all, e.skill)
    ensures Ranked(all, Insert(e, u))
  {
    if u == [] {
    } else if u[0].count >= e.count {
      InsertRanked(all, e, u[1..]);
      InsertBehind(all, e, u);
      ConsRanked(all, u[0], Insert(e, u[1..]));
    } else {
      forall j | 0 <= j < |u| ensures Precedes(all, e, u[j]) {
      }
      ConsRanked(all, e, u);
    }
  }

  /** An entry that precedes everything in a ranked list can be put in front of it. */
  lemma ConsRanked(all: seq<string>, x: Entry, w: seq<Entry>)
    requires Ranked(all, w)
    requires forall j :: 0 <= j < |w| ==> Precedes(all, x, w[j])
    ensures Ranked(all, [x] + w)
  {
    forall i, j | 0 <= i < j < |[x] + w| ensures Precedes(all, ([x] + w)[i], ([x] + w)[j]) {
      assert ([x] + w)[j] == w[j - 1];
      if i > 0 {
        assert ([x] + w)[i] == w[i - 1];
      }
    }
  }

  /** When `e` goes behind the head of `u`, the head precedes everything behind it. */
  lemma InsertBehind(all: seq<string>, e: Entry, u: seq<Entry>)
    requires Ranked(all, u) && u != [] && u[0].count >= e.count
    requires FirstIndex(all, u[0].skill) < FirstIndex(all, e.skill)
    ensures forall j :: 0 <= j < |Insert(e, u[1..])| ==> Precedes(all, u[0], Insert(e, u[1..])[j])
  {
    var w := Insert(e, u[1..]);
    InsertPermutes(e, u[1..]);
    forall j | 0 <= j < |w| ensures Precedes(all, u[0], w[j]) {
      assert w[j] in multiset(w);
      if w[j] != e {
        assert w[j] in multiset(u[1..]);
        var m :| 0 <= m < |u[1..]| && u[1..][m] == w[j];
        assert u[m + 1] == w[j];
      }
    }
  }

  /** The sort is stable: when the input's skills occur in `all` in increasing order of
      first occurrence (as any tally's do), the output is ordered by count, highest
      first, and equal counts keep that first-occurrence order. */
  lemma {:induction false} SortRanked(all: seq<string>, t: seq<Entry>)
    requires forall i, j :: 0 <= i < j < |t| ==> FirstIndex(all, t[i].skill) < FirstIndex(all, t[j].skill)
    ensures Ranked(all, SortByCountDesc(t))
  {
    if t != [] {
      var p, e := t[..|t| - 1], t[|t| - 1];
      SortRanked(all, p);
      var u := SortByCountDesc(p);
      SortPermutes(p);
      forall k | 0 <= k < |u| ensures FirstIndex(all, u[k].skill) < FirstIndex(all, e.skill) {
        assert u[k] in multiset(p);
        var m :| 0 <= m < |p| && p[m] == u[k];
        assert t[m] == u[k];
      }
      InsertRanked(all, e, u);
    }
  }

  /** The names of a list of entries, in order (`.map(([skill]) => skill)`). */
  function Names(t: seq<Entry>): (r: seq<string>)
    ensures |r| == |t| && forall i :: 0 <= i < |t| ==> r[i] == t[i].skill
  {
    seq(|t|, i requires 0 <= i < |t| => t[i].skill)
  }

  /** `getCommonSkills()` over the given developers. */
  function CommonSkills(devs: seq<Developer>): (r: seq<string>) {
    var ranked := SortByCountDesc(Tally(AllSkills(devs)));
    Names(ranked[..Min(TopSkillLimit, |ranked|)])
  }

  /** The ranking order on skill names: more occurrences first, ties by first occurrence. */
  predicate RanksBefore(all: seq<string>, a: string, b: string) {
    Occurrences(all, a) > Occurrences(all, b)
    || (Occurrences(all, a) == Occurrences(all, b) && FirstIndex(all, a) < FirstIndex(all, b))
  }

  /** What the overlay's skill list is, stated without reference to how it is computed:
      at most `limit` skills, each one that some developer has, no skill twice, ordered by
      `RanksBefore`, and no skill left out unless the list is full and every listed
      skill ranks before it. */
  ghost predicate IsTopSkills(all: seq<string>, r: seq<string>, limit: nat) {
    && |r| <= limit
    && (forall i :: 0 <= i < |r| ==> r[i] in all)
    && (forall i, j :: 0 <= i < j < |r| ==> r[i] != r[j])
    && (forall i, j :: 0 <= i < j < |r| ==> RanksBefore(all, r[i], r[j]))
    && (forall x :: x in all && x !in r ==> |r| == limit && forall i :: 0 <= i < |r| ==> RanksBefore(all, r[i], x))
  }

  /** The sorted tally: every distinct skill once, with its true count, ranked. */
  lemma RankedTally(all: seq<string>)
    ensures SortedTally(all, SortByCountDesc(Tally(all)))
  {
    var t := Tally(all);
    TallyIsTally(all);
    SortRanked(all, t);
    SortedCounts(all, t);
    SortedCovers(all, t);
  }

  /** Sorting a tally keeps every entry's count true. */
  lemma SortedCounts(all: seq<string>, t: seq<Entry>)
    requires CountsOf(t, all)
    ensures var u := SortByCountDesc(t);
      forall i :: 0 <= i < |u| ==> u[i].count == Occurrences(all, u[i].skill) && u[i].skill in all
  {
    var u := SortByCountDesc(t);
    SortPermutes(t);
    forall i | 0 <= i < |u| ensures u[i].count == Occurrences(all, u[i].skill) && u[i].skill in all {
      assert u[i] in multiset(t);
      var m :| 0 <= m < |t| && t[m] == u[i];
    }
  }

  /** Sorting a tally drops no skill. */
  lemma SortedCovers(all: seq<string>, t: seq<Entry>)
    requires Covers(t, all)
    ensures var u := SortByCountDesc(t);
      forall x :: x in all ==> exists i :: 0 <= i < |u| && u[i].skill == x
  {
    var u := SortByCountDesc(t);
    SortPermutes(t);
    forall x | x in all ensures exists i :: 0 <= i < |u| && u[i].skill == x {
      var m := KeyIndex(t, x).value;
      assert t[m] in multiset(u);
      var i :| 0 <= i < |u| && u[i] == t[m];
    }
  }

  /** A ranked list of entries carrying the true counts of the skills of `all`, with an
      entry for every one of them. */
  ghost predicate SortedTally(all: seq<string>, u: seq<Entry>) {
    && Ranked(all, u)
    && (forall i :: 0 <= i < |u| ==> u[i].count == Occurrences(all, u[i].skill) && u[i].skill in all)
    && (forall x :: x in all ==> exists i :: 0 <= i < |u| && u[i].skill == x)
  }

  /** Any two entries of a sorted tally have different skills, in ranking order. */
  lemma SortedTallyRanks(all: seq<string>, u: seq<Entry>, i: nat, j: nat)
    requires SortedTally(all, u) && i < j < |u|
    ensures RanksBefore(all, u[i].skill, u[j].skill) && u[i].skill != u[j].skill
  {
    assert Precedes(all, u[i], u[j]);
  }

  /** A skill that is not among the first `n` entries of a sorted tally ranks below
      each of them, and there are more than `n` entries. */
  lemma SortedTallyOmitted(all: seq<string>, u: seq<Entry>, n: nat, x: string)
    requires SortedTally(all, u) && n <= |u| && x in all
    requires forall i :: 0 <= i < n ==> u[i].skill != x
    ensures n < |u| && forall i :: 0 <= i < n ==> RanksBefore(all, u[i].skill, x)
  {
    var p :| 0 <= p < |u| && u[p].skill == x;
    forall i | 0 <= i < n ensures RanksBefore(all, u[i].skill, x) {
      SortedTallyRanks(all, u, i, p);
    }
  }

  /** `getCommonSkills` returns exactly the top skills of the flattened list. */
  lemma CommonSkillsAreTopSkills(devs: seq<Developer>)
    ensures IsTopSkills(AllSkills(devs), CommonSkills(devs), TopSkillLimit)
  {
    var all := AllSkills(devs);
    var u := SortByCountDesc(Tally(all));
    RankedTally(all);
    TopOfSortedTally(all, u, CommonSkills(devs));
  }

  /** The names of the first entries of a sorted tally, as many as the limit allows,
      are its top skills. */
  lemma TopOfSortedTally(all: seq<string>, u: seq<Entry>, r: seq<string>)
    requires SortedTally(all, u)
    requires |r| == Min(TopSkillLimit, |u|) && forall i :: 0 <= i < |r| ==> r[i] == u[i].skill
    ensures IsTopSkills(all, r, TopSkillLimit)
  {
    forall i, j | 0 <= i < j < |r| ensures RanksBefore(all, r[i], r[j]) && r[i] != r[j] {
      SortedTallyRanks(all, u, i, j);
    }
    forall x | x in all && x !in r
      ensures |r| == TopSkillLimit && forall i :: 0 <= i < |r| ==> RanksBefore(all, r[i], x)
    {
      SortedTallyOmitted(all, u, |r|, x);
    }
  }

  /** `RanksBefore` is a strict order; it is total on the distinct skills of `all`. */
  lemma RanksBeforeOrder(all: seq<string>, a: string, b: string)
    ensures !(RanksBefore(all, a, b) && RanksBefore(all, b, a))
    ensures a in all && b in all && a != b ==> RanksBefore(all, a, b) || RanksBefore(all, b, a)
  {
  }

  /** Two lists, each strictly ordered by `RanksBefore`, holding the same skills, are
      the same list. */
  lemma {:induction false} RankedListsEqual(all: seq<string>, a: seq<string>, b: seq<string>)
    requires forall i, j :: 0 <= i < j < |a| ==> RanksBefore(all, a[i], a[j])
    requires forall i, j :: 0 <= i < j < |b| ==> RanksBefore(all, b[i], b[j])
    requires forall x :: x in a <==> x in b
    requires |a| == |b|
    ensures a == b
  {
    if a != [] {
      assert a[0] in a && b[0] in b;
      var j :| 0 <= j < |b| && b[j] == a[0];
      var i :| 0 <= i < |a| && a[i] == b[0];
      var a0, b0 := a[0], b[0];
      RanksBeforeOrder(all, a0, b0);
      assert j > 0 ==> RanksBefore(all, b0, a0) && i > 0;
      assert i > 0 ==> RanksBefore(all, a0, b0);
      assert a0 == b0;
      forall x ensures x in a[1..] <==> x in b[1..] {
        if x in a[1..] {
          var k :| 0 <= k < |a[1..]| && a[1..][k] == x;
          RanksBeforeOrder(all, a[0], a[k + 1]);
          assert x in b && x != b[0];
          var m :| 0 <= m < |b| && b[m] == x;
          assert b[1..][m - 1] == x;
        }
        if x in b[1..] {
          var k :| 0 <= k < |b[1..]| && b[1..][k] == x;
          RanksBeforeOrder(all, b[0], b[k + 1]);
          assert x in a && x != a[0];
          var m :| 0 <= m < |a| && a[m] == x;
          assert a[1..][m - 1] == x;
        }
      }
      RankedListsEqual(all, a[1..], b[1..]);
      assert a == [a[0]] + a[1..] && b == [b[0]] + b[1..];
    }
  }

  /** The skills of a list without repetitions number as many as its length. */
  lemma {:induction false} DistinctCardinality(r: seq<string>)
    requires forall i, j :: 0 <= i < j < |r| ==> r[i] != r[j]
    ensures |set x | x in r| == |r|
  {
    if r != [] {
      DistinctCardinality(r[1..]);
      assert (set x | x in r) == (set x | x in r[1..]) + {r[0]};
      assert r[0] !in r[1..];
    }
  }

  /** `IsTopSkills` describes a single list: any two lists that satisfy it for the same
      skills and limit are equal. */
  lemma TopSkillsUnique(all: seq<string>, a: seq<string>, b: seq<string>, limit: nat)
    requires IsTopSkills(all, a, limit) && IsTopSkills(all, b, limit)
    ensures a == b
  {
    forall x ensures x in a <==> x in b {
      if x in a {
        TopSkillsAgree(all, a, b, limit, x);
      }
      if x in b {
        TopSkillsAgree(all, b, a, limit, x);
      }
    }
    assert (set y | y in a) == (set y | y in b);
    DistinctCardinality(a);
    DistinctCardinality(b);
    RankedListsEqual(all, a, b);
  }

  /** A skill of one top list is in every other: were `x` missing from `b`, then `b`
      would be full and every skill of `b` would be in `a` besides `x`, one too many. */
  lemma TopSkillsAgree(all: seq<string>, a: seq<string>, b: seq<string>, limit: nat, x: string)
    requires IsTopSkills(all, a, limit) && IsTopSkills(all, b, limit)
    requires x in a
    ensures x in b
  {
    if x !in b {
      forall y | y in b ensures y in a {
        if y !in a {
          var i :| 0 <= i < |a| && a[i] == x;
          var j :| 0 <= j < |b| && b[j] == y;
          RanksBeforeOrder(all, x, y);
        }
      }
      var sa := set y | y in a;
      var sb := set y | y in b;
      DistinctCardinality(a);
      DistinctCardinality(b);
      assert sb <= sa - {x};
      SubsetCardinality(sb, sa - {x});
      assert false;
    }
  }

  lemma {:induction false} SubsetCardinality(a: set<string>, b: set<string>)
    requires a <= b
    ensures |a| <= |b|
    decreases b
  {
    if a != {} {
      var y :| y in a;
      SubsetCardinality(a - {y}, b - {y});
    }
  }

  /** Hence `getCommonSkills` is the one list the description allows. */
  lemma CommonSkillsUnique(devs: seq<Developer>, r: seq<string>)
    requires IsTopSkills(AllSkills(devs), r, TopSkillLimit)
    ensures r == CommonSkills(devs)
  {
    CommonSkillsAreTopSkills(devs);
    TopSkillsUnique(AllSkills(devs), r, CommonSkills(devs), TopSkillLimit);
  }

  /** The overlay's list as the screen computes it: flatten, count in place, sort, cut. */
  method GetCommonSkills(devs: seq<Developer>) returns (skills: seq<string>)
    ensures skills == CommonSkills(devs)
    ensures IsTopSkills(AllSkills(devs), skills, TopSkillLimit)
  {
    var all := AllSkills(devs);
    var counts := CountSkills(all);
    var ranked := SortByCountDesc(counts);
    skills := Names(ranked[..Min(TopSkillLimit, |ranked|)]);
    CommonSkillsAreTopSkills(devs);
  }

  lemma TallySnoc(s: seq<string>, x: string)
    ensures Tally(s + [x]) == Bump(Tally(s), x)
  {
    assert (s + [x])[..|s|] == s;
  }

  /** An entry whose count is no higher than any already placed goes last. */
  lemma {:induction false} InsertLast(e: Entry, t: seq<Entry>)
    requires forall i :: 0 <= i < |t| ==> t[i].count >= e.count
    ensures Insert(e, t) == t + [e]
  {
    if t != [] {
      InsertLast(e, t[1..]);
      assert t == [t[0]] + t[1..];
    }
  }

  /** A list already ordered by count, highest first, is left exactly as it is: in
      particular, equal counts are not reordered. */
  lemma {:induction false} SortKeepsSorted(t: seq<Entry>)
    requires forall i, j :: 0 <= i < j < |t| ==> t[i].count >= t[j].count
    ensures SortByCountDesc(t) == t
  {
    if t != [] {
      var p := t[..|t| - 1];
      SortKeepsSorted(p);
      InsertLast(t[|t| - 1], p);
      assert p + [t[|t| - 1]] == t;
    }
  }

  /** One step of the fold over `s` at a skill that has not occurred before: it is
      appended with count 1. */
  lemma FreshStep(s: seq<string>, k: nat)
    requires k < |s| && s[k] !in s[..k]
    ensures Tally(s[..k + 1]) == Tally(s[..k]) + [Entry(s[k], 1)]
  {
    assert s[..k + 1][..k] == s[..k];
    TallyIsTally(s[..k]);
  }

  /** The sample developers' skills, flattened in declared order. */
  lemma MockAllSkills()
    ensures AllSkills(MockDevelopers) == ["React", "TypeScript", "Node.js", "Python", "AI/ML", "TensorFlow", "Next.js", "Security", "React"]
  {
  }

  /** A list without repetitions is tallied to its skills in order, each counted once. */
  lemma {:induction false} TallyOfDistinct(s: seq<string>)
    requires forall i, j :: 0 <= i < j < |s| ==> s[i] != s[j]
    ensures |Tally(s)| == |s| && forall i :: 0 <= i < |s| ==> Tally(s)[i] == Entry(s[i], 1)
  {
    if s != [] {
      var k := |s| - 1;
      TallyOfDistinct(s[..k]);
      assert s[..k + 1] == s;
      FreshStep(s, k);
    }
  }

  /** The sample's first eight skills, all different. */
  const MockFirstSkills: seq<string> :=
    ["React", "TypeScript", "Node.js", "Python", "AI/ML", "TensorFlow", "Next.js", "Security"]

  /** Their tally: each counted once, in order. */
  const MockFirstTally: seq<Entry> :=
    [Entry("React", 1), Entry("TypeScript", 1), Entry("Node.js", 1), Entry("Python", 1),
     Entry("AI/ML", 1), Entry("TensorFlow", 1), Entry("Next.js", 1), Entry("Security", 1)]

  /** The first eight skills of the sample are all different; the ninth repeats the
      first, which then counts twice. */
  lemma MockTally()
    ensures Tally(AllSkills(MockDevelopers)) == MockRanking
  {
    MockAllSkills();
    assert AllSkills(MockDevelopers) == MockFirstSkills + ["React"];
    MockTallyFirstEight();
    TallySnoc(MockFirstSkills, "React");
    MockSecondReact();
  }

  /** The sample's first eight skills, all different, each counted once. */
  lemma MockTallyFirstEight()
    ensures Tally(MockFirstSkills) == MockFirstTally
  {
    MockFirstSkillsDistinct();
    TallyOfDistinct(MockFirstSkills);
  }

  /** No skill occurs twice among the first eight. */
  lemma MockFirstSkillsDistinct()
    ensures forall i, j :: 0 <= i < j < |MockFirstSkills| ==> MockFirstSkills[i] != MockFirstSkills[j]
  {
  }

  /** The ninth skill, a second "React", bumps the first entry. */
  lemma MockSecondReact()
    ensures Bump(MockFirstTally, "React") == MockRanking
  {
    assert KeyIndex(MockFirstTally, "React") == Some(0);
  }

  /** The sample's ranking: "React" twice, then the other skills once each, in the
      order they first appear. */
  const MockRanking: seq<Entry> :=
    [Entry("React", 2), Entry("TypeScript", 1), Entry("Node.js", 1), Entry("Python", 1),
     Entry("AI/ML", 1), Entry("TensorFlow", 1), Entry("Next.js", 1), Entry("Security", 1)]

  /** The sample's tally is already ordered by count, so sorting leaves it as it is. */
  lemma MockRanked()
    ensures SortByCountDesc(Tally(AllSkills(MockDevelopers))) == MockRanking
  {
    MockTally();
    MockRankingSorted();
    SortKeepsSorted(MockRanking);
  }

  /** The sample's ranking is ordered by count, highest first. */
  lemma MockRankingSorted()
    ensures forall i, j :: 0 <= i < j < |MockRanking| ==> MockRanking[i].count >= MockRanking[j].count
  {
  }

  /** The names of the first six entries of the sample's ranking. */
  lemma MockRankingNames()
    ensures Names(MockRanking[..TopSkillLimit]) == ["React", "TypeScript", "Node.js", "Python", "AI/ML", "TensorFlow"]
  {
  }

  /** On the sample developers: "React" occurs twice and leads; the other skills occur
      once each and keep their order of first appearance, so "Next.js" and "Security",
      seventh and eighth, are cut by the limit. */
  lemma MockCommonSkills()
    ensures CommonSkills(MockDevelopers) == ["React", "TypeScript", "Node.js", "Python", "AI/ML", "TensorFlow"]
  {
    MockRanked();
    CommonSkillsOfRanking(MockDevelopers, MockRanking);
    MockRankingNames();
  }

  /** `getCommonSkills` in terms of the sorted tally `u`. */
  lemma CommonSkillsOfRanking(devs: seq<Developer>, u: seq<Entry>)
    requires SortByCountDesc(Tally(AllSkills(devs))) == u
    ensures |u| >= TopSkillLimit ==> CommonSkills(devs) == Names(u[..TopSkillLimit])
  {
  }

  /** A developer who is known only by a list of skills. */
  function WithSkills(skills: seq<string>): Developer {
    Developer("", "", "", 0.0, skills, Online, [], false)
  }

  /** Three developers knowing React and TypeScript, Python and React, and React. */
  const RepeatedSkillDevelopers: seq<Developer> :=
    [WithSkills(["React", "TypeScript"]), WithSkills(["Python", "React"]), WithSkills(["React"])]

  lemma RepeatedSkillFlattened()
    ensures AllSkills(RepeatedSkillDevelopers) == ["React", "TypeScript", "Python", "React", "React"]
  {
  }

  /** The first three skills are fresh; the last two bump React. */
  lemma RepeatedSkillTally()
    ensures Tally(["React", "TypeScript", "Python", "React", "React"]) ==
      [Entry("React", 3), Entry("TypeScript", 1), Entry("Python", 1)]
  {
    var all := ["React", "TypeScript", "Python", "React", "React"];
    assert all[..0] == [];
    FreshStep(all, 0);
    FreshStep(all, 1);
    FreshStep(all, 2);
    assert all[..4] == all[..3] + [all[3]];
    TallySnoc(all[..3], all[3]);
    assert all == all[..4] + [all[4]];
    TallySnoc(all[..4], all[4]);
  }

  /** React occurs three times and leads; TypeScript and Python occur once each and
      keep the order in which they first appear. */
  lemma RepeatedSkillExample()
    ensures CommonSkills(RepeatedSkillDevelopers) == ["React", "TypeScript", "Python"]
  {
    RepeatedSkillFlattened();
    RepeatedSkillTally();
    SortKeepsSorted(Tally(AllSkills(RepeatedSkillDevelopers)));
  }
}
