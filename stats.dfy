/** The weekly statistics shared by both dashboard managers: the completion counter
    filled by the history `forEach`, the ranking `Object.entries(...).sort(...)`, the
    goals tied at the top and bottom, the name lookup, and the date-keyed rollup. */
module Stats {
  import opened Types
  import opened Seqs
  import opened Records

  /** The completed-goal ids of every history entry, in order. */
  function Flatten(lists: seq<seq<GoalId>>): seq<GoalId> {
    if lists == [] then [] else Flatten(lists[..|lists| - 1]) + lists[|lists| - 1]
  }

  /** How often the id occurs, summed entry by entry. */
  function Occurrences(lists: seq<seq<GoalId>>, id: GoalId): nat {
    if lists == [] then 0 else Occurrences(lists[..|lists| - 1], id) + multiset(lists[|lists| - 1])[id]
  }

  /** `goalCompletionCount[goalId] = (goalCompletionCount[goalId] || 0) + 1` over the ids in order. */
  function Tally(ids: seq<GoalId>): map<GoalId, nat> {
    if ids == [] then map[]
    else
      var m := Tally(ids[..|ids| - 1]);
      var x := ids[|ids| - 1];
      m[x := (if x in m then m[x] else 0) + 1]
  }

  /** The counter holds exactly the ids seen, each with its number of occurrences. */
  lemma {:induction false} TallyCounts(ids: seq<GoalId>)
    ensures forall id :: id in Tally(ids) <==> id in ids
    ensures forall id | id in Tally(ids) :: Tally(ids)[id] == multiset(ids)[id] && Tally(ids)[id] >= 1
  {
    if ids != [] {
      var prefix, x := ids[..|ids| - 1], ids[|ids| - 1];
      assert ids == prefix + [x];
      TallyCounts(prefix);
    }
  }

  /** The key order of the counter object: each id where it first occurs. */
  function FirstOccurrences(ids: seq<GoalId>): seq<GoalId> {
    if ids == [] then []
    else
      var d := FirstOccurrences(ids[..|ids| - 1]);
      var x := ids[|ids| - 1];
      if x in d then d else d + [x]
  }

  /** The key order lists every id seen once. */
  lemma {:induction false} FirstOccurrencesMembers(ids: seq<GoalId>)
    ensures forall id :: id in FirstOccurrences(ids) <==> id in ids
    ensures forall i, j :: 0 <= i < j < |FirstOccurrences(ids)| ==> FirstOccurrences(ids)[i] != FirstOccurrences(ids)[j]
  {
    if ids != [] {
      var prefix, x := ids[..|ids| - 1], ids[|ids| - 1];
      assert ids == prefix + [x];
      FirstOccurrencesMembers(prefix);
    }
  }

  lemma FlattenStep(lists: seq<seq<GoalId>>, i: nat)
    requires i < |lists|
    ensures Flatten(lists[..i + 1]) == Flatten(lists[..i]) + lists[i]
  {
    assert lists[..i + 1][..i] == lists[..i];
  }

  /** The counter counts each id's occurrences across all history entries. */
  lemma {:induction false} TallyIsOccurrences(lists: seq<seq<GoalId>>, id: GoalId)
    ensures id in Tally(Flatten(lists)) <==> Occurrences(lists, id) > 0
    ensures id in Tally(Flatten(lists)) ==> Tally(Flatten(lists))[id] == Occurrences(lists, id)
  {
    TallyCounts(Flatten(lists));
    FlattenOccurrences(lists, id);
  }

  lemma {:induction false} FlattenOccurrences(lists: seq<seq<GoalId>>, id: GoalId)
    ensures multiset(Flatten(lists))[id] == Occurrences(lists, id)
  {
    if lists != [] {
      FlattenOccurrences(lists[..|lists| - 1], id);
    }
  }

  /** One more id seen: the counter and its key order after `(count || 0) + 1`. */
  lemma CountStep(before: seq<GoalId>, id: GoalId)
    ensures Tally(before + [id]) == Tally(before)[id := (if id in Tally(before) then Tally(before)[id] else 0) + 1]
    ensures FirstOccurrences(before + [id]) ==
      if id in Tally(before) then FirstOccurrences(before) else FirstOccurrences(before) + [id]
  {
    TallySnoc(before, id);
    FirstOccurrencesSnoc(before, id);
    assert id in Tally(before) <==> id in FirstOccurrences(before) by {
      TallyCounts(before);
      FirstOccurrencesMembers(before);
    }
  }

  lemma TallySnoc(before: seq<GoalId>, id: GoalId)
    ensures Tally(before + [id]) == Tally(before)[id := (if id in Tally(before) then Tally(before)[id] else 0) + 1]
  {
    assert (before + [id])[..|before|] == before;
  }

  lemma FirstOccurrencesSnoc(before: seq<GoalId>, id: GoalId)
    ensures FirstOccurrences(before + [id]) ==
      if id in FirstOccurrences(before) then FirstOccurrences(before) else FirstOccurrences(before) + [id]
  {
    assert (before + [id])[..|before|] == before;
  }

  /** The inner `forEach` over one history entry's ids: each id found adds 1 to its
      count, and an id seen for the first time becomes the counter's next key. */
  method CountDay(ghost seen: seq<GoalId>, order: seq<GoalId>, counts: map<GoalId, nat>, day: seq<GoalId>)
    returns (order': seq<GoalId>, counts': map<GoalId, nat>)
    requires order == FirstOccurrences(seen) && counts == Tally(seen)
    ensures order' == FirstOccurrences(seen + day)
    ensures counts' == Tally(seen + day)
  {
    order', counts' := order, counts;
    assert seen + day[..0] == seen;
    var j := 0;
    while j < |day|
      invariant 0 <= j <= |day|
      invariant order' == FirstOccurrences(seen + day[..j])
      invariant counts' == Tally(seen + day[..j])
    {
      var id := day[j];
      ghost var consumed := seen + day[..j];
      CountStep(consumed, id);
      if id !in counts' {
        order' := order' + [id];
      }
      counts' := counts'[id := (if id in counts' then counts'[id] else 0) + 1];
      ExtendPrefix(seen, day, j);
      j := j + 1;
    }
    assert day[..j] == day;
  }

  /** An `Object.entries` pair: an id and its count. */
  datatype Entry = Entry(id: GoalId, count: nat)

  function Entries(order: seq<GoalId>, counts: map<GoalId, nat>): (r: seq<Entry>)
    requires forall id | id in order :: id in counts
    ensures |r| == |order|
    ensures forall i :: 0 <= i < |r| ==> r[i] == Entry(order[i], counts[order[i]])
  {
    seq(|order|, i requires 0 <= i < |order| => Entry(order[i], counts[order[i]]))
  }

  ghost predicate SortedByCountDesc(s: seq<Entry>) {
    forall i, j :: 0 <= i < j < |s| ==> s[i].count >= s[j].count
  }

  /** Places e before the first entry whose count is not larger: ties keep e first. */
  function Insert(e: Entry, sorted: seq<Entry>): seq<Entry> {
    if sorted == [] || sorted[0].count <= e.count then [e] + sorted
    else [sorted[0]] + Insert(e, sorted[1..])
  }

  lemma {:induction false} InsertPermutes(e: Entry, sorted: seq<Entry>)
    ensures multiset(Insert(e, sorted)) == multiset(sorted) + multiset{e}
  {
    if !(sorted == [] || sorted[0].count <= e.count) {
      var head, tail := sorted[0], sorted[1..];
      InsertPermutes(e, tail);
      assert sorted == [head] + tail;
      assert Insert(e, sorted) == [head] + Insert(e, tail);
      assert multiset(Insert(e, sorted)) == multiset{head} + multiset(Insert(e, tail));
    }
  }

  /** Inserting below a bound keeps every count below it. */
  lemma {:induction false} InsertBounded(e: Entry, sorted: seq<Entry>, b: nat)
    requires e.count <= b && forall k :: 0 <= k < |sorted| ==> sorted[k].count <= b
    ensures forall k :: 0 <= k < |Insert(e, sorted)| ==> Insert(e, sorted)[k].count <= b
  {
    if !(sorted == [] || sorted[0].count <= e.count) {
      InsertBounded(e, sorted[1..], b);
    }
  }

  lemma SortedCons(x: Entry, s: seq<Entry>)
    requires SortedByCountDesc(s) && forall k :: 0 <= k < |s| ==> s[k].count <= x.count
    ensures SortedByCountDesc([x] + s)
  {
    var r := [x] + s;
    forall i, j | 0 <= i < j < |r| ensures r[i].count >= r[j].count {
      assert r[j] == s[j - 1];
      if i > 0 { assert r[i] == s[i - 1]; }
    }
  }

  lemma {:induction false} InsertSorted(e: Entry, sorted: seq<Entry>)
    requires SortedByCountDesc(sorted)
    ensures SortedByCountDesc(Insert(e, sorted))
  {
    if sorted == [] || sorted[0].count <= e.count {
      SortedCons(e, sorted);
    } else {
      var tail := sorted[1..];
      InsertSorted(e, tail);
      InsertBounded(e, tail, sorted[0].count);
      SortedCons(sorted[0], Insert(e, tail));
    }
  }

  /** `.sort((a, b) => b[1] - a[1])`: a stable sort by descending count. */
  function SortByCount(entries: seq<Entry>): seq<Entry> {
    if entries == [] then [] else Insert(entries[0], SortByCount(entries[1..]))
  }

  /** The sort orders by descending count and is a permutation of its input. */
  lemma {:induction false} SortByCountCorrect(entries: seq<Entry>)
    ensures multiset(SortByCount(entries)) == multiset(entries)
    ensures SortedByCountDesc(SortByCount(entries))
  {
    if entries != [] {
      SortByCountCorrect(entries[1..]);
      InsertPermutes(entries[0], SortByCount(entries[1..]));
      InsertSorted(entries[0], SortByCount(entries[1..]));
      assert entries == [entries[0]] + entries[1..];
    }
  }

  /** In a descending ranking the first count is the largest and the last the smallest. */
  lemma RankBounds(s: seq<Entry>, j: int)
    requires SortedByCountDesc(s) && 0 <= j < |s|
    ensures s[0].count >= s[j].count >= s[|s| - 1].count
  {
    if 0 < j { assert s[0].count >= s[j].count; }
    if j < |s| - 1 { assert s[j].count >= s[|s| - 1].count; }
  }

  /** A test that only entries of count c can pass. */
  ghost predicate OnlyCount(p: Entry -> bool, c: nat) {
    forall x :: p(x) ==> x.count == c
  }

  lemma FilterCons<T>(x: T, s: seq<T>, p: T -> bool)
    ensures Filter([x] + s, p) == (if p(x) then [x] else []) + Filter(s, p)
  {
    assert ([x] + s)[1..] == s;
  }

  lemma ConcatSwap<T>(a: seq<T>, b: seq<T>, rest: seq<T>)
    requires a == [] || b == []
    ensures a + (b + rest) == b + (a + rest)
  {
    if a == [] {
      assert a + (b + rest) == b + rest;
      assert a + rest == rest;
    } else {
      assert b + (a + rest) == a + rest;
      assert b + rest == rest;
    }
  }

  lemma SortedTail(s: seq<Entry>)
    requires s != [] && SortedByCountDesc(s)
    ensures SortedByCountDesc(s[1..])
  {
    forall i, j | 0 <= i < j < |s[1..]| ensures s[1..][i].count >= s[1..][j].count {
      assert s[1..][i] == s[i + 1] && s[1..][j] == s[j + 1];
    }
  }

  lemma {:induction false} InsertFilter(e: Entry, sorted: seq<Entry>, p: Entry -> bool, c: nat)
    requires SortedByCountDesc(sorted) && OnlyCount(p, c)
    ensures Filter(Insert(e, sorted), p) == (if p(e) then [e] else []) + Filter(sorted, p)
  {
    if sorted == [] || sorted[0].count <= e.count {
      FilterCons(e, sorted, p);
    } else {
      var s0, tail := sorted[0], sorted[1..];
      var head := if p(e) then [e] else [];
      var first := if p(s0) then [s0] else [];
      SortedTail(sorted);
      InsertFilter(e, tail, p, c);
      FilterCons(s0, Insert(e, tail), p);
      FilterCons(s0, tail, p);
      assert sorted == [s0] + tail;
      assert s0.count != e.count;
      assert first == [] || head == [];
      ConcatSwap(first, head, Filter(tail, p));
    }
  }

  /** Sorting keeps the entries that pass a single-count test in their original order. */
  lemma {:induction false} SortFilterStable(entries: seq<Entry>, p: Entry -> bool, c: nat)
    requires OnlyCount(p, c)
    ensures Filter(SortByCount(entries), p) == Filter(entries, p)
  {
    if entries != [] {
      SortFilterStable(entries[1..], p, c);
      SortByCountCorrect(entries[1..]);
      InsertFilter(entries[0], SortByCount(entries[1..]), p, c);
    }
  }

  /** The counter's entries in key order. */
  function CounterEntries(lists: seq<seq<GoalId>>): seq<Entry> {
    TallyCounts(Flatten(lists));
    FirstOccurrencesMembers(Flatten(lists));
    Entries(FirstOccurrences(Flatten(lists)), Tally(Flatten(lists)))
  }

  /** The ranked counter entries of a history's completed-goal lists. */
  function Ranked(lists: seq<seq<GoalId>>): (r: seq<Entry>)
    ensures multiset(r) == multiset(CounterEntries(lists))
    ensures SortedByCountDesc(r)
  {
    SortByCountCorrect(CounterEntries(lists));
    SortByCount(CounterEntries(lists))
  }

  const UnknownGoalName: string := "Unknown Goal"

  /** createGoalObject's name: the first goal with the id, or the placeholder. */
  function GoalName(goals: seq<Goal>, id: GoalId): (r: string)
    ensures (forall k :: 0 <= k < |goals| ==> goals[k].id != id) ==> r == UnknownGoalName
    ensures (exists k :: 0 <= k < |goals| && goals[k].id == id) ==>
      exists k :: FirstOfId(goals, k, id) && r == goals[k].title
  {
    match GoalFor(goals, id)
    case Some(g) => g.title
    case None => UnknownGoalName
  }

  function GoalRefs(goals: seq<Goal>, entries: seq<Entry>): (r: seq<GoalRef>)
    ensures |r| == |entries|
    ensures forall i :: 0 <= i < |r| ==> r[i].id == entries[i].id && r[i].name == GoalName(goals, entries[i].id)
  {
    seq(|entries|, i requires 0 <= i < |entries| => GoalRef(entries[i].id, GoalName(goals, entries[i].id)))
  }

  /** The entries of a ranking whose count equals the first one's. */
  function TopOf(ranked: seq<Entry>): seq<Entry> {
    if |ranked| > 0 then Filter(ranked, (e: Entry) => e.count == ranked[0].count) else []
  }

  /** The entries of a ranking whose count equals the last one's and is above 0. */
  function BottomOf(ranked: seq<Entry>): seq<Entry> {
    if |ranked| > 0 then Filter(ranked, (e: Entry) => e.count == ranked[|ranked| - 1].count && e.count > 0)
    else []
  }

  function TopEntries(lists: seq<seq<GoalId>>): seq<Entry> {
    TopOf(Ranked(lists))
  }

  function BottomEntries(lists: seq<seq<GoalId>>): seq<Entry> {
    BottomOf(Ranked(lists))
  }

  /** mostCompletedGoals. */
  function MostCompleted(lists: seq<seq<GoalId>>, goals: seq<Goal>): seq<GoalRef> {
    GoalRefs(goals, TopEntries(lists))
  }

  /** leastCompletedGoals. */
  function LeastCompleted(lists: seq<seq<GoalId>>, goals: seq<Goal>): seq<GoalRef> {
    GoalRefs(goals, BottomEntries(lists))
  }

  /** The counted id holds the largest count. */
  ghost predicate IsMostCompleted(lists: seq<seq<GoalId>>, id: GoalId) {
    && Occurrences(lists, id) > 0
    && forall other :: Occurrences(lists, other) > 0 ==> Occurrences(lists, other) <= Occurrences(lists, id)
  }

  /** The counted id holds the smallest count. */
  ghost predicate IsLeastCompleted(lists: seq<seq<GoalId>>, id: GoalId) {
    && Occurrences(lists, id) > 0
    && forall other :: Occurrences(lists, other) > 0 ==> Occurrences(lists, id) <= Occurrences(lists, other)
  }

  lemma EntriesAreCounts(lists: seq<seq<GoalId>>, e: Entry)
    ensures e in CounterEntries(lists) <==> Occurrences(lists, e.id) > 0 && e.count == Occurrences(lists, e.id)
  {
    var order := FirstOccurrences(Flatten(lists));
    var es := CounterEntries(lists);
    TallyIsOccurrences(lists, e.id);
    FirstOccurrencesMembers(Flatten(lists));
    TallyCounts(Flatten(lists));
    if Occurrences(lists, e.id) > 0 && e.count == Occurrences(lists, e.id) {
      var k :| 0 <= k < |order| && order[k] == e.id;
      assert es[k] == e;
    }
  }

  lemma RankedAreCounts(lists: seq<seq<GoalId>>, e: Entry)
    ensures e in Ranked(lists) <==> Occurrences(lists, e.id) > 0 && e.count == Occurrences(lists, e.id)
  {
    assert e in Ranked(lists) <==> e in multiset(CounterEntries(lists));
    EntriesAreCounts(lists, e);
  }

  ghost predicate DistinctIds(s: seq<Entry>) {
    forall i, j :: 0 <= i < j < |s| ==> s[i].id != s[j].id
  }

  ghost predicate Distinct<T>(s: seq<T>) {
    forall i, j :: 0 <= i < j < |s| ==> s[i] != s[j]
  }

  lemma {:induction false} DistinctMultiset<T>(s: seq<T>)
    ensures Distinct(s) <==> forall x :: multiset(s)[x] <= 1
  {
    if s != [] {
      var p, x := s[..|s| - 1], s[|s| - 1];
      assert s == p + [x];
      DistinctMultiset(p);
      if Distinct(s) {
        assert Distinct(p) by {
          forall i, j | 0 <= i < j < |p| ensures p[i] != p[j] { assert p[i] == s[i] && p[j] == s[j]; }
        }
        assert x !in p by {
          forall i | 0 <= i < |p| ensures p[i] != x { assert p[i] == s[i]; }
        }
      }
      if forall y :: multiset(s)[y] <= 1 {
        assert forall y :: multiset(p)[y] <= 1 by {
          forall y ensures multiset(p)[y] <= 1 { assert multiset(s)[y] >= multiset(p)[y]; }
        }
        assert multiset(s)[x] == multiset(p)[x] + 1;
        forall i, j | 0 <= i < j < |s| ensures s[i] != s[j] {
          if j < |s| - 1 { assert s[i] == p[i] && s[j] == p[j]; }
          else { assert s[i] in p; }
        }
      }
    }
  }

  /** Each id occurs at most once among the ranked entries. */
  lemma RankedDistinct(lists: seq<seq<GoalId>>)
    ensures DistinctIds(Ranked(lists))
  {
    var r := Ranked(lists);
    var es := CounterEntries(lists);
    var order := FirstOccurrences(Flatten(lists));
    FirstOccurrencesMembers(Flatten(lists));
    assert Distinct(es) by {
      forall i, j | 0 <= i < j < |es| ensures es[i] != es[j] { assert es[i].id == order[i]; }
    }
    DistinctMultiset(es);
    DistinctMultiset(r);
    forall i, j | 0 <= i < j < |r| ensures r[i].id != r[j].id {
      RankedAreCounts(lists, r[i]);
      RankedAreCounts(lists, r[j]);
    }
  }

  /** Every top entry is an id's count, and that count is the largest. */
  lemma TopEntriesSound(lists: seq<seq<GoalId>>, e: Entry)
    requires e in TopEntries(lists)
    ensures IsMostCompleted(lists, e.id) && e.count == Occurrences(lists, e.id)
  {
    var ranked := Ranked(lists);
    TopOfIsMax(ranked, e);
    RankedAreCounts(lists, e);
    forall other | Occurrences(lists, other) > 0
      ensures Occurrences(lists, other) <= Occurrences(lists, e.id)
    {
      RankedAreCounts(lists, Entry(other, Occurrences(lists, other)));
    }
  }

  /** A top entry of a ranking is in it and no entry of it counts more. */
  lemma TopOfIsMax(ranked: seq<Entry>, e: Entry)
    requires SortedByCountDesc(ranked) && e in TopOf(ranked)
    ensures e in ranked && forall x :: x in ranked ==> x.count <= e.count
  {
    var p := (x: Entry) => x.count == ranked[0].count;
    assert TopOf(ranked) == Filter(ranked, p);
    assert e in ranked && p(e);
    forall x | x in ranked ensures x.count <= e.count {
      var j :| 0 <= j < |ranked| && ranked[j] == x;
      RankBounds(ranked, j);
    }
  }

  /** Every id with the largest count has its entry among the top ones. */
  lemma TopEntriesComplete(lists: seq<seq<GoalId>>, id: GoalId)
    requires IsMostCompleted(lists, id)
    ensures Entry(id, Occurrences(lists, id)) in TopEntries(lists)
  {
    var ranked := Ranked(lists);
    var e := Entry(id, Occurrences(lists, id));
    RankedAreCounts(lists, e);
    forall x | x in ranked ensures x.count <= e.count {
      RankedAreCounts(lists, x);
    }
    TopOfComplete(ranked, e);
  }

  /** An entry of a ranking that no entry of it outcounts is among the top ones. */
  lemma TopOfComplete(ranked: seq<Entry>, e: Entry)
    requires SortedByCountDesc(ranked) && e in ranked
    requires forall x :: x in ranked ==> x.count <= e.count
    ensures e in TopOf(ranked)
  {
    var i :| 0 <= i < |ranked| && ranked[i] == e;
    RankBounds(ranked, i);
    assert ranked[0] in ranked;
    var p := (x: Entry) => x.count == ranked[0].count;
    assert TopOf(ranked) == Filter(ranked, p);
    assert p(ranked[i]);
  }

  /** Every bottom entry is an id's count, and that count is the smallest. */
  lemma BottomEntriesSound(lists: seq<seq<GoalId>>, e: Entry)
    requires e in BottomEntries(lists)
    ensures IsLeastCompleted(lists, e.id) && e.count == Occurrences(lists, e.id)
  {
    var ranked := Ranked(lists);
    BottomOfIsMin(ranked, e);
    RankedAreCounts(lists, e);
    forall other | Occurrences(lists, other) > 0
      ensures Occurrences(lists, e.id) <= Occurrences(lists, other)
    {
      RankedAreCounts(lists, Entry(other, Occurrences(lists, other)));
    }
  }

  /** A bottom entry of a ranking is in it, counts above 0, and no entry of it counts less. */
  lemma BottomOfIsMin(ranked: seq<Entry>, e: Entry)
    requires SortedByCountDesc(ranked) && e in BottomOf(ranked)
    ensures e in ranked && e.count > 0 && forall x :: x in ranked ==> e.count <= x.count
  {
    var p := (x: Entry) => x.count == ranked[|ranked| - 1].count && x.count > 0;
    assert BottomOf(ranked) == Filter(ranked, p);
    assert e in ranked && p(e);
    forall x | x in ranked ensures e.count <= x.count {
      var j :| 0 <= j < |ranked| && ranked[j] == x;
      RankBounds(ranked, j);
    }
  }

  /** Every id with the smallest count has its entry among the bottom ones. */
  lemma BottomEntriesComplete(lists: seq<seq<GoalId>>, id: GoalId)
    requires IsLeastCompleted(lists, id)
    ensures Entry(id, Occurrences(lists, id)) in BottomEntries(lists)
  {
    var ranked := Ranked(lists);
    var e := Entry(id, Occurrences(lists, id));
    RankedAreCounts(lists, e);
    forall x | x in ranked ensures e.count <= x.count {
      RankedAreCounts(lists, x);
    }
    BottomOfComplete(ranked, e);
  }

  /** An entry of a ranking above 0 that no entry of it undercounts is among the bottom ones. */
  lemma BottomOfComplete(ranked: seq<Entry>, e: Entry)
    requires SortedByCountDesc(ranked) && e in ranked && e.count > 0
    requires forall x :: x in ranked ==> e.count <= x.count
    ensures e in BottomOf(ranked)
  {
    var i :| 0 <= i < |ranked| && ranked[i] == e;
    RankBounds(ranked, i);
    assert ranked[|ranked| - 1] in ranked;
    var p := (x: Entry) => x.count == ranked[|ranked| - 1].count && x.count > 0;
    assert BottomOf(ranked) == Filter(ranked, p);
    assert p(ranked[i]);
  }

  /** The reported goals of a filtered ranking name each id once. */
  lemma PickedDistinct(lists: seq<seq<GoalId>>, p: Entry -> bool)
    ensures DistinctIds(Filter(Ranked(lists), p))
  {
    RankedDistinct(lists);
    FilterIsSubsequence(Ranked(lists), p);
    SubsequenceDistinct(Filter(Ranked(lists), p), Ranked(lists));
  }

  /** The top entries are exactly those of the ids tied at the maximum count, each once. */
  lemma TopEntriesExact(lists: seq<seq<GoalId>>)
    ensures var top := TopEntries(lists);
      && DistinctIds(top)
      && (forall k :: 0 <= k < |top| ==> IsMostCompleted(lists, top[k].id))
      && (forall id :: IsMostCompleted(lists, id) ==> exists k :: 0 <= k < |top| && top[k].id == id)
  {
    var ranked := Ranked(lists);
    var top := TopEntries(lists);
    if |ranked| > 0 {
      PickedDistinct(lists, (e: Entry) => e.count == ranked[0].count);
    }
    forall id | IsMostCompleted(lists, id) ensures exists k :: 0 <= k < |top| && top[k].id == id {
      TopEntriesComplete(lists, id);
    }
    forall k | 0 <= k < |top| ensures IsMostCompleted(lists, top[k].id) {
      TopEntriesSound(lists, top[k]);
    }
  }

  /** The bottom entries are exactly those of the ids tied at the minimum count, each once. */
  lemma BottomEntriesExact(lists: seq<seq<GoalId>>)
    ensures var bottom := BottomEntries(lists);
      && DistinctIds(bottom)
      && (forall k :: 0 <= k < |bottom| ==> IsLeastCompleted(lists, bottom[k].id))
      && (forall id :: IsLeastCompleted(lists, id) ==> exists k :: 0 <= k < |bottom| && bottom[k].id == id)
  {
    var ranked := Ranked(lists);
    var bottom := BottomEntries(lists);
    if |ranked| > 0 {
      PickedDistinct(lists, (e: Entry) => e.count == ranked[|ranked| - 1].count && e.count > 0);
    }
    forall id | IsLeastCompleted(lists, id) ensures exists k :: 0 <= k < |bottom| && bottom[k].id == id {
      BottomEntriesComplete(lists, id);
    }
    forall k | 0 <= k < |bottom| ensures IsLeastCompleted(lists, bottom[k].id) {
      BottomEntriesSound(lists, bottom[k]);
    }
  }

  /** "Most" is exactly the goals tied at the maximum count, each once, each with its
      looked-up name. */
  lemma MostCompletedExact(lists: seq<seq<GoalId>>, goals: seq<Goal>)
    ensures var most := MostCompleted(lists, goals);
      && (forall id :: (exists k :: 0 <= k < |most| && most[k].id == id) <==> IsMostCompleted(lists, id))
      && (forall k :: 0 <= k < |most| ==> most[k].name == GoalName(goals, most[k].id))
      && (forall i, j :: 0 <= i < j < |most| ==> most[i].id != most[j].id)
  {
    var top := TopEntries(lists);
    var most := MostCompleted(lists, goals);
    TopEntriesExact(lists);
    assert forall k :: 0 <= k < |most| ==> most[k].id == top[k].id;
    forall id | IsMostCompleted(lists, id) ensures exists k :: 0 <= k < |most| && most[k].id == id {
      var k :| 0 <= k < |top| && top[k].id == id;
      assert most[k].id == id;
    }
  }

  /** "Least" is exactly the goals tied at the minimum count, each once, each with its
      looked-up name. */
  lemma LeastCompletedExact(lists: seq<seq<GoalId>>, goals: seq<Goal>)
    ensures var least := LeastCompleted(lists, goals);
      && (forall id :: (exists k :: 0 <= k < |least| && least[k].id == id) <==> IsLeastCompleted(lists, id))
      && (forall k :: 0 <= k < |least| ==> least[k].name == GoalName(goals, least[k].id))
      && (forall i, j :: 0 <= i < j < |least| ==> least[i].id != least[j].id)
  {
    var bottom := BottomEntries(lists);
    var least := LeastCompleted(lists, goals);
    BottomEntriesExact(lists);
    assert forall k :: 0 <= k < |least| ==> least[k].id == bottom[k].id;
    forall id | IsLeastCompleted(lists, id) ensures exists k :: 0 <= k < |least| && least[k].id == id {
      var k :| 0 <= k < |bottom| && bottom[k].id == id;
      assert least[k].id == id;
    }
  }

  /** With the sort made explicit: the tied entries come out in the counter's key order. */
  lemma MostCompletedInCounterOrder(lists: seq<seq<GoalId>>, goals: seq<Goal>)
    requires Ranked(lists) != []
    ensures var top := Ranked(lists)[0].count;
      MostCompleted(lists, goals) == GoalRefs(goals, Filter(CounterEntries(lists), (e: Entry) => e.count == top))
  {
    var top := Ranked(lists)[0].count;
    SortFilterStable(CounterEntries(lists), (e: Entry) => e.count == top, top);
  }

  lemma {:induction false} SubsequenceDistinct(a: seq<Entry>, b: seq<Entry>)
    requires IsSubsequence(a, b)
    requires forall i, j :: 0 <= i < j < |b| ==> b[i].id != b[j].id
    ensures forall i, j :: 0 <= i < j < |a| ==> a[i].id != a[j].id
    decreases |b|
  {
    if a != [] && b != [] {
      assert forall i, j :: 0 <= i < j < |b[1..]| ==> b[1..][i].id != b[1..][j].id by {
        forall i, j | 0 <= i < j < |b[1..]| ensures b[1..][i].id != b[1..][j].id {
          assert b[1..][i] == b[i + 1] && b[1..][j] == b[j + 1];
        }
      }
      if a[0] == b[0] {
        SubsequenceDistinct(a[1..], b[1..]);
        SubsequenceMembers(a[1..], b[1..]);
        forall j | 0 < j < |a| ensures a[0].id != a[j].id {
          assert a[j] == a[1..][j - 1];
          var m :| 0 <= m < |b[1..]| && b[1..][m] == a[j];
          assert b[m + 1] == a[j];
        }
        forall i, j | 0 <= i < j < |a| ensures a[i].id != a[j].id {
          if i > 0 { assert a[i] == a[1..][i - 1] && a[j] == a[1..][j - 1]; }
        }
      } else {
        SubsequenceDistinct(a, b[1..]);
      }
    }
  }

  lemma {:induction false} SubsequenceMembers<T>(a: seq<T>, b: seq<T>)
    requires IsSubsequence(a, b)
    ensures forall i :: 0 <= i < |a| ==> exists m :: 0 <= m < |b| && b[m] == a[i]
    decreases |b|
  {
    if a != [] && b != [] {
      if a[0] == b[0] {
        SubsequenceMembers(a[1..], b[1..]);
        forall i | 0 <= i < |a| ensures exists m :: 0 <= m < |b| && b[m] == a[i] {
          if i == 0 { assert b[0] == a[0]; }
          else {
            assert a[i] == a[1..][i - 1];
            var m :| 0 <= m < |b[1..]| && b[1..][m] == a[i];
            assert b[m + 1] == a[i];
          }
        }
      } else {
        SubsequenceMembers(a, b[1..]);
        forall i | 0 <= i < |a| ensures exists m :: 0 <= m < |b| && b[m] == a[i] {
          var m :| 0 <= m < |b[1..]| && b[1..][m] == a[i];
          assert b[m + 1] == a[i];
        }
      }
    }
  }

  /** `dailyCompletions[day.date] = value(day)` over the entries in order: a later entry
      of the same date replaces an earlier one. */
  function LastWins<E, V>(entries: seq<E>, key: E -> Day, value: E -> V): map<Day, V> {
    if entries == [] then map[]
    else LastWins(entries[..|entries| - 1], key, value)[key(entries[|entries| - 1]) := value(entries[|entries| - 1])]
  }

  /** The rollup holds exactly the entries' dates, each with the value of its last entry. */
  lemma {:induction false} LastWinsAt<E, V>(entries: seq<E>, key: E -> Day, value: E -> V, d: Day)
    ensures d in LastWins(entries, key, value) <==> exists k :: 0 <= k < |entries| && key(entries[k]) == d
    ensures d in LastWins(entries, key, value) ==>
      exists k :: 0 <= k < |entries| && key(entries[k]) == d && LastWins(entries, key, value)[d] == value(entries[k])
        && forall j :: k < j < |entries| ==> key(entries[j]) != d
  {
    if entries != [] {
      var n := |entries| - 1;
      var prefix := entries[..n];
      LastWinsAt(prefix, key, value, d);
      if key(entries[n]) != d {
        if d in LastWins(prefix, key, value) {
          var k :| 0 <= k < |prefix| && key(prefix[k]) == d && LastWins(prefix, key, value)[d] == value(prefix[k])
            && forall j :: k < j < |prefix| ==> key(prefix[j]) != d;
          assert entries[k] == prefix[k];
          assert forall j :: k < j < |entries| ==> key(entries[j]) != d by {
            forall j | k < j < |entries| ensures key(entries[j]) != d {
              if j < n { assert entries[j] == prefix[j]; }
            }
          }
        }
        assert (exists k :: 0 <= k < |entries| && key(entries[k]) == d) ==> exists k :: 0 <= k < |prefix| && key(prefix[k]) == d by {
          if exists k :: 0 <= k < |entries| && key(entries[k]) == d {
            var k :| 0 <= k < |entries| && key(entries[k]) == d;
            assert k < n && prefix[k] == entries[k];
          }
        }
      }
    }
  }

  /** `history.push(entry)` followed by `history.slice(-limit)`. */
  function BoundedAppend<T>(history: seq<T>, entry: T, limit: nat): (r: seq<T>)
    requires limit > 0
    ensures |r| == if |history| < limit then |history| + 1 else limit
    ensures r != [] && r[|r| - 1] == entry
    ensures r[..|r| - 1] == history[|history| + 1 - |r|..]
  {
    var full := history + [entry];
    assert full[..|history|] == history;
    var r := TakeLast(full, limit);
    assert r == full[|full| - |r|..];
    r
  }

  /** Appending to the bounded log gives the same log as appending to the whole
      history and then keeping the last entries. */
  lemma BoundedAppendWindow<T>(history: seq<T>, entry: T, limit: nat)
    requires limit > 0
    ensures BoundedAppend(TakeLast(history, limit), entry, limit) == TakeLast(history + [entry], limit)
  {
    var kept := TakeLast(history, limit);
    var full := history + [entry];
    var r := BoundedAppend(kept, entry, limit);
    var t := TakeLast(full, limit);
    assert |r| == |t|;
    forall i | 0 <= i < |r| ensures r[i] == t[i] {
      if i == |r| - 1 {
      } else {
        assert r[i] == r[..|r| - 1][i];
        assert t == full[|full| - |t|..];
        assert kept == history[|history| - |kept|..];
      }
    }
  }
}
