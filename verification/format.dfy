/** `EventFormatter.pretty_print` of src/maillog/event/format.py: group the
    events by (process name, process id) in a dict, which keeps the order in
    which keys first appear; stable-sort the groups on the timestamp string of
    each group's first event; emit one header and one blank line per group.
    The per-event lines go to `print`, not into the result. */
module Format {
  import opened Events
  import opened Text

  /** The grouping key `(event.process_name, event.process_id)`. */
  datatype Key = Key(processName: string, processId: int)

  function KeyOf(e: MaillogEvent): Key
  {
    Key(e.processName, e.processId)
  }

  /** One dict entry: a key and the events filed under it. */
  datatype Group = Group(key: Key, events: seq<MaillogEvent>)

  /** The events carrying key `k`, in input order. */
  function Select(events: seq<MaillogEvent>, k: Key): seq<MaillogEvent>
  {
    if |events| == 0 then []
    else if KeyOf(events[|events| - 1]) == k then Select(events[..|events| - 1], k) + [events[|events| - 1]]
    else Select(events[..|events| - 1], k)
  }

  /** The keys that occur among the events. */
  function KeysOf(events: seq<MaillogEvent>): (r: set<Key>)
    ensures forall p :: 0 <= p < |events| ==> KeyOf(events[p]) in r
  {
    if |events| == 0 then {}
    else KeysOf(events[..|events| - 1]) + {KeyOf(events[|events| - 1])}
  }

  /** Position of the first event with key `k`; `|events|` when there is none. */
  function FirstIndex(events: seq<MaillogEvent>, k: Key): (r: nat)
    ensures r <= |events|
    ensures r < |events| <==> k in KeysOf(events)
    ensures r < |events| ==> KeyOf(events[r]) == k
    ensures forall q :: 0 <= q < r && q < |events| ==> KeyOf(events[q]) != k
  {
    if |events| == 0 then 0
    else
      var init := events[..|events| - 1];
      if k in KeysOf(init) then FirstIndex(init, k)
      else if KeyOf(events[|events| - 1]) == k then |events| - 1
      else |events|
  }

  /** Position of the group with key `k`; `|gs|` when there is none. */
  function KeyIndex(gs: seq<Group>, k: Key): (i: nat)
    ensures i <= |gs|
    ensures i < |gs| ==> gs[i].key == k
    ensures forall j :: 0 <= j < i ==> gs[j].key != k
  {
    if |gs| == 0 then 0 else if gs[0].key == k then 0 else 1 + KeyIndex(gs[1..], k)
  }

  /** `events_grouped[key].append(event)` on a defaultdict. */
  function AddEvent(gs: seq<Group>, e: MaillogEvent): seq<Group>
  {
    var i := KeyIndex(gs, KeyOf(e));
    if i == |gs| then gs + [Group(KeyOf(e), [e])]
    else gs[i := gs[i].(events := gs[i].events + [e])]
  }

  /** The grouping loop over all events, in dict order. */
  function GroupEvents(events: seq<MaillogEvent>): seq<Group>
  {
    if |events| == 0 then [] else AddEvent(GroupEvents(events[..|events| - 1]), events[|events| - 1])
  }

  ghost predicate DistinctKeys(gs: seq<Group>)
  {
    forall i, j :: 0 <= i < j < |gs| ==> gs[i].key != gs[j].key
  }

  /** Each group holds exactly its key's events, in input order, and is not empty. */
  ghost predicate Selected(events: seq<MaillogEvent>, gs: seq<Group>)
  {
    forall i :: 0 <= i < |gs| ==> gs[i].events == Select(events, gs[i].key) && gs[i].events != []
  }

  /** The group keys are exactly the keys that occur among the events. */
  ghost predicate Indexed(events: seq<MaillogEvent>, gs: seq<Group>)
  {
    forall k :: k in KeysOf(events) <==> KeyIndex(gs, k) < |gs|
  }

  /** Groups stand in the order in which their keys first appear. */
  ghost predicate InAppearanceOrder(events: seq<MaillogEvent>, gs: seq<Group>)
  {
    forall i, j :: 0 <= i < j < |gs| ==> FirstIndex(events, gs[i].key) < FirstIndex(events, gs[j].key)
  }

  /** `gs` is the dict built from `events`: one group per key, holding exactly
      that key's events in input order, the groups in order of first appearance. */
  ghost predicate IsGrouping(events: seq<MaillogEvent>, gs: seq<Group>)
  {
    DistinctKeys(gs) && Selected(events, gs) && Indexed(events, gs) && InAppearanceOrder(events, gs)
  }

  lemma {:induction false} SelectAbsent(events: seq<MaillogEvent>, k: Key)
    requires k !in KeysOf(events)
    ensures Select(events, k) == []
  {
    if |events| > 0 {
      SelectAbsent(events[..|events| - 1], k);
    }
  }

  /** The first event of a key's selection is the event at its first index. */
  lemma {:induction false} SelectStartsAtFirstIndex(events: seq<MaillogEvent>, k: Key)
    requires k in KeysOf(events)
    ensures Select(events, k) != []
    ensures Select(events, k)[0] == events[FirstIndex(events, k)]
  {
    var init := events[..|events| - 1];
    if k in KeysOf(init) {
      SelectStartsAtFirstIndex(init, k);
    } else {
      SelectAbsent(init, k);
    }
  }

  lemma {:induction false} KeyIndexSameKeys(gs: seq<Group>, hs: seq<Group>, k: Key)
    requires |gs| == |hs|
    requires forall j :: 0 <= j < |gs| ==> gs[j].key == hs[j].key
    ensures KeyIndex(gs, k) == KeyIndex(hs, k)
  {
    if |gs| > 0 && gs[0].key != k {
      KeyIndexSameKeys(gs[1..], hs[1..], k);
    }
  }

  lemma {:induction false} KeyIndexAppend(gs: seq<Group>, g: Group, k: Key)
    ensures KeyIndex(gs, k) < |gs| ==> KeyIndex(gs + [g], k) == KeyIndex(gs, k)
    ensures KeyIndex(gs, k) == |gs| && g.key == k ==> KeyIndex(gs + [g], k) == |gs|
    ensures KeyIndex(gs, k) == |gs| && g.key != k ==> KeyIndex(gs + [g], k) == |gs| + 1
  {
    if |gs| > 0 && gs[0].key != k {
      assert (gs + [g])[1..] == gs[1..] + [g];
      KeyIndexAppend(gs[1..], g, k);
    }
  }

  /** Every group key occurs among the events. */
  lemma {:induction false} GroupKeyOccurs(events: seq<MaillogEvent>, gs: seq<Group>, j: nat)
    requires Indexed(events, gs)
    requires j < |gs|
    ensures gs[j].key in KeysOf(events)
    ensures FirstIndex(events, gs[j].key) < |events|
  {
  }

  /** The last event adds its key to the keys of the events before it. */
  lemma {:induction false} KeysGrow(events: seq<MaillogEvent>)
    requires |events| > 0
    ensures KeyOf(events[|events| - 1]) in KeysOf(events[..|events| - 1]) ==>
      KeysOf(events) == KeysOf(events[..|events| - 1])
    ensures KeyOf(events[|events| - 1]) !in KeysOf(events[..|events| - 1]) ==>
      |KeysOf(events)| == |KeysOf(events[..|events| - 1])| + 1
  {
  }

  /** Filing the last event under a key already present: that key's group
      grows by the event, every other group and the order of the groups stay. */
  lemma {:induction false} GroupStepExisting(events: seq<MaillogEvent>, gs: seq<Group>)
    requires |events| > 0
    requires IsGrouping(events[..|events| - 1], gs)
    requires KeyIndex(gs, KeyOf(events[|events| - 1])) < |gs|
    requires |gs| == |KeysOf(events[..|events| - 1])|
    ensures IsGrouping(events, AddEvent(gs, events[|events| - 1]))
    ensures |AddEvent(gs, events[|events| - 1])| == |KeysOf(events)|
  {
    var pre, e := events[..|events| - 1], events[|events| - 1];
    var i := KeyIndex(gs, KeyOf(e));
    var hs := AddEvent(gs, e);
    assert hs == gs[i := gs[i].(events := gs[i].events + [e])];
    GroupKeyOccurs(pre, gs, i);
    KeysGrow(events);
    ExistingSelected(events, gs, i, hs);
    ExistingIndexed(events, gs, hs);
    ExistingOrder(events, gs, hs);
  }

  lemma {:induction false} ExistingSelected(events: seq<MaillogEvent>, gs: seq<Group>, i: nat, hs: seq<Group>)
    requires |events| > 0
    requires Selected(events[..|events| - 1], gs) && DistinctKeys(gs)
    requires i == KeyIndex(gs, KeyOf(events[|events| - 1])) < |gs|
    requires hs == gs[i := gs[i].(events := gs[i].events + [events[|events| - 1]])]
    ensures Selected(events, hs)
  {
    forall j | 0 <= j < |hs|
      ensures hs[j].events == Select(events, hs[j].key) && hs[j].events != []
    {
      if j != i {
        assert gs[j].key != gs[i].key;
      }
    }
  }

  lemma {:induction false} ExistingIndexed(events: seq<MaillogEvent>, gs: seq<Group>, hs: seq<Group>)
    requires |events| > 0
    requires Indexed(events[..|events| - 1], gs)
    requires KeyOf(events[|events| - 1]) in KeysOf(events[..|events| - 1])
    requires |hs| == |gs| && forall j :: 0 <= j < |gs| ==> hs[j].key == gs[j].key
    ensures Indexed(events, hs)
  {
    forall k ensures k in KeysOf(events) <==> KeyIndex(hs, k) < |hs|
    {
      KeyIndexSameKeys(gs, hs, k);
    }
  }

  lemma {:induction false} ExistingOrder(events: seq<MaillogEvent>, gs: seq<Group>, hs: seq<Group>)
    requires |events| > 0
    requires Indexed(events[..|events| - 1], gs) && InAppearanceOrder(events[..|events| - 1], gs)
    requires |hs| == |gs| && forall j :: 0 <= j < |gs| ==> hs[j].key == gs[j].key
    ensures InAppearanceOrder(events, hs)
  {
    var pre := events[..|events| - 1];
    forall a, b | 0 <= a < b < |hs|
      ensures FirstIndex(events, hs[a].key) < FirstIndex(events, hs[b].key)
    {
      GroupKeyOccurs(pre, gs, a);
      GroupKeyOccurs(pre, gs, b);
    }
  }

  /** Filing the last event under a new key: a new group at the end, holding
      just that event. */
  lemma {:induction false} GroupStepNew(events: seq<MaillogEvent>, gs: seq<Group>)
    requires |events| > 0
    requires IsGrouping(events[..|events| - 1], gs)
    requires KeyIndex(gs, KeyOf(events[|events| - 1])) == |gs|
    requires |gs| == |KeysOf(events[..|events| - 1])|
    ensures IsGrouping(events, AddEvent(gs, events[|events| - 1]))
    ensures |AddEvent(gs, events[|events| - 1])| == |KeysOf(events)|
  {
    var e := events[|events| - 1];
    assert KeyOf(e) !in KeysOf(events[..|events| - 1]);
    KeysGrow(events);
    var k := KeyOf(e);
    var hs := AddEvent(gs, e);
    assert hs == gs + [Group(k, [e])];
    NewSelected(events, gs, hs);
    forall k' ensures k' in KeysOf(events) <==> KeyIndex(hs, k') < |hs|
    {
      KeyIndexAppend(gs, Group(k, [e]), k');
    }
    NewOrder(events, gs, hs);
  }

  lemma {:induction false} NewSelected(events: seq<MaillogEvent>, gs: seq<Group>, hs: seq<Group>)
    requires |events| > 0
    requires Selected(events[..|events| - 1], gs) && Indexed(events[..|events| - 1], gs)
    requires KeyIndex(gs, KeyOf(events[|events| - 1])) == |gs|
    requires hs == gs + [Group(KeyOf(events[|events| - 1]), [events[|events| - 1]])]
    ensures Selected(events, hs)
  {
    var pre, e := events[..|events| - 1], events[|events| - 1];
    SelectAbsent(pre, KeyOf(e));
    forall j | 0 <= j < |hs|
      ensures hs[j].events == Select(events, hs[j].key) && hs[j].events != []
    {
      if j < |gs| {
        assert hs[j] == gs[j];
      }
    }
  }

  lemma {:induction false} NewOrder(events: seq<MaillogEvent>, gs: seq<Group>, hs: seq<Group>)
    requires |events| > 0
    requires Indexed(events[..|events| - 1], gs) && InAppearanceOrder(events[..|events| - 1], gs)
    requires KeyIndex(gs, KeyOf(events[|events| - 1])) == |gs|
    requires hs == gs + [Group(KeyOf(events[|events| - 1]), [events[|events| - 1]])]
    ensures InAppearanceOrder(events, hs)
  {
    var pre := events[..|events| - 1];
    forall a, b | 0 <= a < b < |hs|
      ensures FirstIndex(events, hs[a].key) < FirstIndex(events, hs[b].key)
    {
      GroupKeyOccurs(pre, gs, a);
      if b < |gs| {
        GroupKeyOccurs(pre, gs, b);
      }
    }
  }

  /** The dict the loop builds groups the events correctly, one group per key. */
  lemma {:induction false} GroupingCorrect(events: seq<MaillogEvent>)
    ensures IsGrouping(events, GroupEvents(events))
    ensures |GroupEvents(events)| == |KeysOf(events)|
  {
    if |events| > 0 {
      var pre, e := events[..|events| - 1], events[|events| - 1];
      GroupingCorrect(pre);
      var gs := GroupEvents(pre);
      assert GroupEvents(events) == AddEvent(gs, e);
      if KeyIndex(gs, KeyOf(e)) < |gs| {
        GroupStepExisting(events, gs);
      } else {
        GroupStepNew(events, gs);
      }
    }
  }

  /** `x[1][0].timestamp`: the sort key of a group. */
  function FirstTimestamp(g: Group): string
  {
    if |g.events| == 0 then "" else g.events[0].timestamp
  }

  /** Position `a` comes strictly before position `b` under a stable sort on
      first timestamps: a smaller timestamp, or the same one and an earlier position. */
  predicate Before(gs: seq<Group>, a: nat, b: nat)
  {
    && a < |gs| && b < |gs|
    && (LexLess(FirstTimestamp(gs[a]), FirstTimestamp(gs[b]))
        || (FirstTimestamp(gs[a]) == FirstTimestamp(gs[b]) && a < b))
  }

  ghost predicate Ordered(gs: seq<Group>, order: seq<nat>)
  {
    forall i, j :: 0 <= i < j < |order| ==> Before(gs, order[i], order[j])
  }

  lemma {:induction false} BeforeTransitive(gs: seq<Group>, a: nat, b: nat, c: nat)
    requires Before(gs, a, b) && Before(gs, b, c)
    ensures Before(gs, a, c)
  {
    var ta, tb, tc := FirstTimestamp(gs[a]), FirstTimestamp(gs[b]), FirstTimestamp(gs[c]);
    if LexLess(ta, tb) && LexLess(tb, tc) {
      LexLessTransitive(ta, tb, tc);
    }
  }

  lemma {:induction false} BeforeTotal(gs: seq<Group>, a: nat, b: nat)
    requires a < |gs| && b < |gs| && a != b
    ensures Before(gs, a, b) || Before(gs, b, a)
  {
    var ta, tb := FirstTimestamp(gs[a]), FirstTimestamp(gs[b]);
    if ta != tb {
      LexLessTotal(ta, tb);
    }
  }

  lemma {:induction false} BeforeIrreflexive(gs: seq<Group>, a: nat)
    ensures !Before(gs, a, a)
  {
    LexLessIrreflexive(if a < |gs| then FirstTimestamp(gs[a]) else "");
  }

  /** Insert position `x` into an ordered list of positions. */
  function InsertPosition(gs: seq<Group>, x: nat, order: seq<nat>): (r: seq<nat>)
    ensures |r| == |order| + 1
    ensures forall y :: y in r <==> y == x || y in order
  {
    if |order| == 0 then [x]
    else if Before(gs, x, order[0]) then [x] + order
    else [order[0]] + InsertPosition(gs, x, order[1..])
  }

  lemma {:induction false} InsertKeepsOrder(gs: seq<Group>, x: nat, order: seq<nat>)
    requires x < |gs| && x !in order
    requires forall i :: 0 <= i < |order| ==> order[i] < |gs|
    requires Ordered(gs, order)
    ensures Ordered(gs, InsertPosition(gs, x, order))
  {
    var r := InsertPosition(gs, x, order);
    if |order| == 0 {
    } else if Before(gs, x, order[0]) {
      forall j | 1 <= j < |r|
        ensures Before(gs, r[0], r[j])
      {
        if j > 1 {
          BeforeTransitive(gs, x, order[0], order[j - 1]);
        }
      }
    } else {
      BeforeTotal(gs, x, order[0]);
      var tail := InsertPosition(gs, x, order[1..]);
      InsertKeepsOrder(gs, x, order[1..]);
      forall j | 0 <= j < |tail|
        ensures Before(gs, order[0], tail[j])
      {
        assert tail[j] in tail;
        if tail[j] != x {
          assert tail[j] in order[1..];
          var q :| 0 <= q < |order[1..]| && order[1..][q] == tail[j];
          assert order[q + 1] == tail[j];
        }
      }
      assert r == [order[0]] + tail;
    }
  }

  /** Positions `0..n-1` in the order Python's stable `sorted` leaves them. */
  function SortPositions(gs: seq<Group>, n: nat): (r: seq<nat>)
    requires n <= |gs|
    ensures |r| == n
    ensures forall i :: 0 <= i < |r| ==> r[i] < n
    ensures forall y: nat :: y < n ==> y in r
    ensures Ordered(gs, r)
  {
    if n == 0 then []
    else
      var prev := SortPositions(gs, n - 1);
      var r := InsertPosition(gs, n - 1, prev);
      InsertPositionSorts(gs, n - 1, prev, r);
      r
  }

  /** Inserting position `x` into the sorted positions below it sorts the positions up to `x`. */
  lemma {:induction false} InsertPositionSorts(gs: seq<Group>, x: nat, prev: seq<nat>, r: seq<nat>)
    requires x < |gs| && |prev| == x
    requires forall i :: 0 <= i < |prev| ==> prev[i] < x
    requires forall y: nat :: y < x ==> y in prev
    requires Ordered(gs, prev)
    requires r == InsertPosition(gs, x, prev)
    ensures |r| == x + 1
    ensures forall i :: 0 <= i < |r| ==> r[i] < x + 1
    ensures forall y: nat :: y < x + 1 ==> y in r
    ensures Ordered(gs, r)
  {
    InsertKeepsOrder(gs, x, prev);
    assert forall i :: 0 <= i < |r| ==> r[i] in r;
  }

  /** `groups_ordered`: the dict's groups, stably sorted on first timestamps. */
  function OrderedGroups(events: seq<MaillogEvent>): (r: seq<Group>)
    ensures |r| == |KeysOf(events)|
    ensures DistinctKeys(r)
    ensures forall k :: k in KeysOf(events) <==> exists i :: 0 <= i < |r| && r[i].key == k
    ensures forall i :: 0 <= i < |r| ==> r[i].events == Select(events, r[i].key)
    ensures forall i :: 0 <= i < |r| ==>
      FirstIndex(events, r[i].key) < |events|
      && FirstTimestamp(r[i]) == events[FirstIndex(events, r[i].key)].timestamp
    ensures forall i, j :: 0 <= i < j < |r| ==>
      || LexLess(FirstTimestamp(r[i]), FirstTimestamp(r[j]))
      || (FirstTimestamp(r[i]) == FirstTimestamp(r[j])
          && FirstIndex(events, r[i].key) < FirstIndex(events, r[j].key))
  {
    var gs := GroupEvents(events);
    var order := SortPositions(gs, |gs|);
    GroupingCorrect(events);
    OrderedGroupsContents(events, gs, order);
    OrderedGroupsOrder(events, gs, order);
    Permute(gs, order)
  }

  /** The groups at the listed positions, in the listed order. */
  function Permute(gs: seq<Group>, order: seq<nat>): (r: seq<Group>)
    requires forall i :: 0 <= i < |order| ==> order[i] < |gs|
    ensures |r| == |order| && forall i :: 0 <= i < |r| ==> r[i] == gs[order[i]]
  {
    seq(|order|, i requires 0 <= i < |order| => gs[order[i]])
  }

  lemma {:induction false} OrderedGroupsUnfold(events: seq<MaillogEvent>)
    ensures var gs := GroupEvents(events);
      OrderedGroups(events) == Permute(gs, SortPositions(gs, |gs|))
  {
  }

  /** The sorted groups are the dict's groups: one per key, each holding its
      key's events. */
  lemma {:induction false} OrderedGroupsContents(events: seq<MaillogEvent>, gs: seq<Group>, order: seq<nat>)
    requires IsGrouping(events, gs) && |gs| == |KeysOf(events)|
    requires SortsGroups(gs, order)
    ensures var r := Permute(gs, order);
      && |r| == |KeysOf(events)|
      && DistinctKeys(r)
      && (forall k :: k in KeysOf(events) <==> exists i :: 0 <= i < |r| && r[i].key == k)
      && (forall i :: 0 <= i < |r| ==> r[i].events == Select(events, r[i].key))
  {
    var r := Permute(gs, order);
    PermutedKeysDistinct(gs, order, r);
    PermutedKeysCover(events, gs, order, r);
    PermutedFirstEvents(events, gs, order, r);
  }

  /** The sorted groups stand in stable order of their first timestamps. */
  lemma {:induction false} OrderedGroupsOrder(events: seq<MaillogEvent>, gs: seq<Group>, order: seq<nat>)
    requires IsGrouping(events, gs)
    requires SortsGroups(gs, order)
    ensures var r := Permute(gs, order);
      && (forall i :: 0 <= i < |r| ==>
            FirstIndex(events, r[i].key) < |events|
            && FirstTimestamp(r[i]) == events[FirstIndex(events, r[i].key)].timestamp)
      && (forall i, j :: 0 <= i < j < |r| ==>
            || LexLess(FirstTimestamp(r[i]), FirstTimestamp(r[j]))
            || (FirstTimestamp(r[i]) == FirstTimestamp(r[j])
                && FirstIndex(events, r[i].key) < FirstIndex(events, r[j].key)))
  {
    var r := Permute(gs, order);
    PermutedFirstEvents(events, gs, order, r);
    PermutedOrder(events, gs, order, r);
  }

  /** `order` lists every position of `gs` once, in stable-sort order. */
  ghost predicate SortsGroups(gs: seq<Group>, order: seq<nat>)
  {
    && |order| == |gs|
    && (forall i :: 0 <= i < |order| ==> order[i] < |gs|)
    && (forall y: nat :: y < |gs| ==> y in order)
    && Ordered(gs, order)
  }

  lemma {:induction false} PermutedKeysDistinct(gs: seq<Group>, order: seq<nat>, r: seq<Group>)
    requires SortsGroups(gs, order)
    requires |r| == |order| && forall i :: 0 <= i < |r| ==> r[i] == gs[order[i]]
    requires DistinctKeys(gs)
    ensures DistinctKeys(r)
  {
    forall i, j | 0 <= i < j < |r|
      ensures r[i].key != r[j].key
    {
      BeforeIrreflexive(gs, order[i]);
      assert Before(gs, order[i], order[j]);
    }
  }

  lemma {:induction false} PermutedKeysCover(events: seq<MaillogEvent>, gs: seq<Group>, order: seq<nat>, r: seq<Group>)
    requires SortsGroups(gs, order)
    requires |r| == |order| && forall i :: 0 <= i < |r| ==> r[i] == gs[order[i]]
    requires Indexed(events, gs)
    ensures forall k :: k in KeysOf(events) <==> exists i :: 0 <= i < |r| && r[i].key == k
  {
    forall k
      ensures k in KeysOf(events) <==> exists i :: 0 <= i < |r| && r[i].key == k
    {
      if k in KeysOf(events) {
        var g := KeyIndex(gs, k);
        assert g in order;
        var i :| 0 <= i < |order| && order[i] == g;
        assert r[i].key == k;
      }
      if exists i :: 0 <= i < |r| && r[i].key == k {
        var i :| 0 <= i < |r| && r[i].key == k;
        GroupKeyOccurs(events, gs, order[i]);
      }
    }
  }

  lemma {:induction false} PermutedFirstEvents(events: seq<MaillogEvent>, gs: seq<Group>, order: seq<nat>, r: seq<Group>)
    requires SortsGroups(gs, order)
    requires |r| == |order| && forall i :: 0 <= i < |r| ==> r[i] == gs[order[i]]
    requires Selected(events, gs) && Indexed(events, gs)
    ensures forall i :: 0 <= i < |r| ==> r[i].events == Select(events, r[i].key)
    ensures forall i :: 0 <= i < |r| ==>
      FirstIndex(events, r[i].key) < |events|
      && FirstTimestamp(r[i]) == events[FirstIndex(events, r[i].key)].timestamp
  {
    forall i | 0 <= i < |r|
      ensures r[i].events == Select(events, r[i].key)
      ensures FirstIndex(events, r[i].key) < |events|
      ensures FirstTimestamp(r[i]) == events[FirstIndex(events, r[i].key)].timestamp
    {
      GroupKeyOccurs(events, gs, order[i]);
      SelectStartsAtFirstIndex(events, r[i].key);
    }
  }

  lemma {:induction false} PermutedOrder(events: seq<MaillogEvent>, gs: seq<Group>, order: seq<nat>, r: seq<Group>)
    requires SortsGroups(gs, order)
    requires |r| == |order| && forall i :: 0 <= i < |r| ==> r[i] == gs[order[i]]
    requires InAppearanceOrder(events, gs)
    ensures forall i, j :: 0 <= i < j < |r| ==>
      || LexLess(FirstTimestamp(r[i]), FirstTimestamp(r[j]))
      || (FirstTimestamp(r[i]) == FirstTimestamp(r[j])
          && FirstIndex(events, r[i].key) < FirstIndex(events, r[j].key))
  {
    forall i, j | 0 <= i < j < |r|
      ensures || LexLess(FirstTimestamp(r[i]), FirstTimestamp(r[j]))
              || (FirstTimestamp(r[i]) == FirstTimestamp(r[j])
                  && FirstIndex(events, r[i].key) < FirstIndex(events, r[j].key))
    {
      assert Before(gs, order[i], order[j]);
    }
  }

  /** An event lands in a key's selection exactly when it occurs and has that key. */
  lemma {:induction false} SelectMembers(events: seq<MaillogEvent>, k: Key, x: MaillogEvent)
    ensures x in Select(events, k) <==> x in events && KeyOf(x) == k
  {
    if |events| > 0 {
      var init := events[..|events| - 1];
      SelectMembers(init, k, x);
      assert events == init + [events[|events| - 1]];
    }
  }

  /** Groups with distinct keys, each holding its key's selection, partition the events. */
  lemma {:induction false} SelectionsPartition(events: seq<MaillogEvent>, r: seq<Group>, x: MaillogEvent)
    requires DistinctKeys(r)
    requires forall k :: k in KeysOf(events) <==> exists i :: 0 <= i < |r| && r[i].key == k
    requires forall i :: 0 <= i < |r| ==> r[i].events == Select(events, r[i].key)
    requires x in events
    ensures exists i :: 0 <= i < |r| && x in r[i].events
    ensures forall i, j :: 0 <= i < |r| && 0 <= j < |r| && x in r[i].events && x in r[j].events ==> i == j
  {
    var p :| 0 <= p < |events| && events[p] == x;
    assert KeyOf(events[p]) in KeysOf(events);
    var i :| 0 <= i < |r| && r[i].key == KeyOf(x);
    SelectMembers(events, KeyOf(x), x);
    forall i', j' | 0 <= i' < |r| && 0 <= j' < |r| && x in r[i'].events && x in r[j'].events
      ensures i' == j'
    {
      SelectMembers(events, r[i'].key, x);
      SelectMembers(events, r[j'].key, x);
    }
  }

  /** The ordered groups partition the input: every event sits in exactly one group. */
  lemma {:induction false} EventsPartitioned(events: seq<MaillogEvent>, x: MaillogEvent)
    requires x in events
    ensures var r := OrderedGroups(events);
      && (exists i :: 0 <= i < |r| && x in r[i].events)
      && (forall i, j :: 0 <= i < |r| && 0 <= j < |r| && x in r[i].events && x in r[j].events ==> i == j)
  {
    SelectionsPartition(events, OrderedGroups(events), x);
  }

  /** Two event lists that agree on everything but message and log level. */
  ghost predicate SameShape(events: seq<MaillogEvent>, other: seq<MaillogEvent>)
  {
    && |events| == |other|
    && forall p :: 0 <= p < |events| ==>
      KeyOf(events[p]) == KeyOf(other[p]) && events[p].timestamp == other[p].timestamp
  }

  /** Two group lists with the same keys, sizes and first timestamps, group by group. */
  ghost predicate SameGroupShape(gs: seq<Group>, hs: seq<Group>)
  {
    && |gs| == |hs|
    && forall i :: 0 <= i < |gs| ==>
      && gs[i].key == hs[i].key
      && |gs[i].events| == |hs[i].events|
      && FirstTimestamp(gs[i]) == FirstTimestamp(hs[i])
  }

  lemma {:induction false} AddEventSameShape(gs: seq<Group>, hs: seq<Group>, e: MaillogEvent, f: MaillogEvent)
    requires SameGroupShape(gs, hs)
    requires KeyOf(e) == KeyOf(f) && e.timestamp == f.timestamp
    ensures SameGroupShape(AddEvent(gs, e), AddEvent(hs, f))
  {
    KeyIndexSameKeys(gs, hs, KeyOf(e));
  }

  lemma {:induction false} GroupEventsSameShape(events: seq<MaillogEvent>, other: seq<MaillogEvent>)
    requires SameShape(events, other)
    ensures SameGroupShape(GroupEvents(events), GroupEvents(other))
  {
    if |events| > 0 {
      var n := |events| - 1;
      GroupEventsSameShape(events[..n], other[..n]);
      AddEventSameShape(GroupEvents(events[..n]), GroupEvents(other[..n]), events[n], other[n]);
    }
  }

  lemma {:induction false} InsertPositionSameShape(gs: seq<Group>, hs: seq<Group>, x: nat, order: seq<nat>)
    requires SameGroupShape(gs, hs)
    ensures InsertPosition(gs, x, order) == InsertPosition(hs, x, order)
  {
    if |order| > 0 {
      InsertPositionSameShape(gs, hs, x, order[1..]);
    }
  }

  lemma {:induction false} SortPositionsSameShape(gs: seq<Group>, hs: seq<Group>, n: nat)
    requires SameGroupShape(gs, hs) && n <= |gs|
    ensures SortPositions(gs, n) == SortPositions(hs, n)
  {
    if n > 0 {
      SortPositionsSameShape(gs, hs, n - 1);
      InsertPositionSameShape(gs, hs, n - 1, SortPositions(gs, n - 1));
    }
  }

  lemma {:induction false} RenderSameKeys(gs: seq<Group>, hs: seq<Group>)
    requires |gs| == |hs| && forall i :: 0 <= i < |gs| ==> gs[i].key == hs[i].key
    ensures Render(gs) == Render(hs)
  {
    if |gs| > 0 {
      RenderSameKeys(gs[1..], hs[1..]);
    }
  }

  /** Messages and log levels never reach the result: it depends only on the
      keys and timestamps of the events. */
  lemma {:induction false} PrettyPrintIgnoresMessages(events: seq<MaillogEvent>, other: seq<MaillogEvent>)
    requires SameShape(events, other)
    ensures PrettyPrint(events) == PrettyPrint(other)
  {
    var gs, hs := GroupEvents(events), GroupEvents(other);
    GroupEventsSameShape(events, other);
    SortPositionsSameShape(gs, hs, |gs|);
    OrderedGroupsUnfold(events);
    OrderedGroupsUnfold(other);
    var order := SortPositions(gs, |gs|);
    RenderSameKeys(Permute(gs, order), Permute(hs, order));
  }

  /** `f"{pname} (pid={pid}):\n"`. */
  function Header(k: Key): string
  {
    k.processName + " (pid=" + IntToString(k.processId) + "):\n"
  }

  /** The result string: a header and a blank line per group, nothing per event. */
  function Render(gs: seq<Group>): (r: string)
    ensures |gs| > 0 ==> |r| > 0
  {
    if |gs| == 0 then "" else Header(gs[0].key) + "\n" + Render(gs[1..])
  }

  /** `pretty_print`. */
  function PrettyPrint(events: seq<MaillogEvent>): (r: string)
    ensures r == "" <==> events == []
  {
    var groups := OrderedGroups(events);
    assert |events| > 0 ==> KeyOf(events[0]) in KeysOf(events);
    Render(groups)
  }
}
