/** The timer list of core/xnet/TimerList.cpp: nodes ordered by how long they wait, not by when they are due. */
module TimerLists {
  type HandlerId = nat

  /** expire: the timeout; elapsed: the list's clock when it was armed; order: how many nodes were armed before it,
      which the list itself never looks at. */
  datatype TimerNode = TimerNode(expire: int, elapsed: int, handler: HandlerId, order: nat)

  /** Shorter timeouts first, equal timeouts in arming order, and arming order follows the clock. */
  ghost predicate Ordered(ts: seq<TimerNode>) {
    && (forall i, j :: 0 <= i < j < |ts| ==>
          ts[i].expire < ts[j].expire || (ts[i].expire == ts[j].expire && ts[i].order < ts[j].order))
    && (forall i, j :: 0 <= i < |ts| && 0 <= j < |ts| && ts[i].order < ts[j].order ==> ts[i].elapsed <= ts[j].elapsed)
  }

  predicate Overdue(t: TimerNode, clock: int) {
    clock - t.elapsed > t.expire
  }

  /** Arming removes a node of the handler whose timeout differs; cancelling removes any. */
  predicate Replaces(timeout: int, handler: HandlerId, t: TimerNode) {
    t.handler == handler && ((timeout > 0 && timeout != t.expire) || timeout < 0)
  }

  /** Where the first node to be replaced is; the length when there is none. */
  function FirstReplaced(ts: seq<TimerNode>, timeout: int, handler: HandlerId): (k: nat)
    ensures k <= |ts|
    ensures forall i :: 0 <= i < k ==> !Replaces(timeout, handler, ts[i])
    ensures k < |ts| ==> Replaces(timeout, handler, ts[k])
  {
    if ts == [] || Replaces(timeout, handler, ts[0]) then 0 else 1 + FirstReplaced(ts[1..], timeout, handler)
  }

  /** What is left after the first node to be replaced is erased. */
  function Without(ts: seq<TimerNode>, timeout: int, handler: HandlerId): seq<TimerNode> {
    var k := FirstReplaced(ts, timeout, handler);
    if k < |ts| then ts[..k] + ts[k + 1..] else ts
  }

  function Handlers(ts: seq<TimerNode>): (hs: seq<HandlerId>)
    ensures |hs| == |ts| && forall i :: 0 <= i < |ts| ==> hs[i] == ts[i].handler
  {
    seq(|ts|, i requires 0 <= i < |ts| => ts[i].handler)
  }

  /** The nodes of one handler, in the order of the list. */
  function Of(ts: seq<TimerNode>, handler: HandlerId): seq<TimerNode> {
    if ts == [] then [] else
    Of(ts[..|ts| - 1], handler) + if ts[|ts| - 1].handler == handler then [ts[|ts| - 1]] else []
  }

  class TimerList {
    var timers: seq<TimerNode>
    var elapsed: int
    var armings: nat

    ghost predicate Valid()
      reads this
    {
      && Ordered(timers)
      && forall t :: t in timers ==> t.order < armings && t.elapsed <= elapsed
    }

    constructor ()
      ensures Valid() && timers == [] && elapsed == 0 && armings == 0
    {
      timers, elapsed, armings := [], 0, 0;
    }

    /** The first loop: erases the first node to be replaced.  True: it was cancelled, nothing is armed. */
    method Unarm(timeout: int, handler: HandlerId) returns (cancelled: bool)
      requires Valid()
      modifies this`timers
      ensures Valid() && timers == Without(old(timers), timeout, handler)
      ensures cancelled <==> timeout < 0 && FirstReplaced(old(timers), timeout, handler) < |old(timers)|
    {
      hide Ordered;
      var i := 0;
      while i < |timers|
        invariant 0 <= i <= |timers| && timers == old(timers)
        invariant forall j :: 0 <= j < i ==> !Replaces(timeout, handler, timers[j])
      {
        if timers[i].handler == handler {
          if timeout > 0 && timeout != timers[i].expire {
            ReplacedAt(timers, timeout, handler, i);
            RemovalKeepsOrder(timers, i);
            timers := timers[..i] + timers[i + 1..];
            return false;
          }
          if timeout < 0 {
            ReplacedAt(timers, timeout, handler, i);
            RemovalKeepsOrder(timers, i);
            timers := timers[..i] + timers[i + 1..];
            return true;
          }
        }
        i := i + 1;
      }
      return false;
    }

    /** The second loop: a new node goes behind every node that does not wait longer. */
    method Arm(timeout: int, handler: HandlerId)
      requires Valid()
      modifies this`timers, this`armings
      ensures Valid() && armings == old(armings) + 1
      ensures timers == Inserted(old(timers), Slot(old(timers), timeout), TimerNode(timeout, elapsed, handler, old(armings)))
    {
      hide Ordered;
      var at := 0;
      while at < |timers| && timers[at].expire <= timeout
        invariant 0 <= at <= |timers|
        invariant forall j :: 0 <= j < at ==> timers[j].expire <= timeout
      {
        at := at + 1;
      }
      SlotAt(timers, timeout, at);
      InsertionKeepsOrder(timers, at, TimerNode(timeout, elapsed, handler, armings));
      timers := timers[..at] + [TimerNode(timeout, elapsed, handler, armings)] + timers[at..];
      armings := armings + 1;
    }

    /** Arms a timer, or with a negative timeout cancels one.  Cancelling a handler that has none arms it instead, with
        the negative timeout. */
    method AddTimer(timeout: int, handler: HandlerId)
      requires Valid()
      modifies this`timers, this`armings
      ensures Valid()
      ensures var rest := Without(old(timers), timeout, handler);
              if timeout < 0 && FirstReplaced(old(timers), timeout, handler) < |old(timers)|
              then timers == rest && armings == old(armings)
              else timers == Inserted(rest, Slot(rest, timeout), TimerNode(timeout, elapsed, handler, old(armings)))
                   && armings == old(armings) + 1
      ensures forall other :: other != handler ==> Of(timers, other) == Of(old(timers), other)
      ensures Of(old(timers), handler) == [] ==>
                Of(timers, handler) == [TimerNode(timeout, elapsed, handler, old(armings))]
      ensures |Of(old(timers), handler)| == 1 ==>
                var had := Of(old(timers), handler)[0];
                if timeout < 0 then Of(timers, handler) == []
                else if timeout == 0 || timeout == had.expire then |Of(timers, handler)| == 2 && had in Of(timers, handler)
                else Of(timers, handler) == [TimerNode(timeout, elapsed, handler, old(armings))]
    {
      hide Ordered, Inserted, Without, Of, FirstReplaced;
      WithoutOf(timers, timeout, handler);
      var rest := Without(timers, timeout, handler);
      InsertedOf(rest, Slot(rest, timeout), TimerNode(timeout, elapsed, handler, armings));
      var cancelled := Unarm(timeout, handler);
      if !cancelled {
        Arm(timeout, handler);
      }
    }

    /** Moves the clock on and fires from the front while the first node is overdue: exactly the longest overdue prefix,
        nothing early, the rest untouched. */
    method CheckTimer(tick: nat, handlers: seq<HandlerId>) returns (n: nat, fired: seq<HandlerId>)
      requires Valid()
      modifies this
      ensures Valid() && elapsed == old(elapsed) + tick && armings == old(armings)
      ensures exists k :: 0 <= k <= |old(timers)| && LongestOverduePrefix(old(timers), elapsed, k)
                          && timers == old(timers)[k..] && fired == handlers + Handlers(old(timers)[..k])
                          && (forall i :: 0 <= i < k ==> elapsed - old(timers)[i].elapsed > old(timers)[i].expire)
                          && (k < |old(timers)| ==> elapsed - old(timers)[k].elapsed <= old(timers)[k].expire)
      ensures n == |fired|
    {
      elapsed := elapsed + tick;
      fired := handlers;
      ghost var k := 0;
      assert timers[0..] == timers && handlers + Handlers(timers[..0]) == handlers;
      while timers != [] && Overdue(timers[0], elapsed)
        invariant elapsed == old(elapsed) + tick && armings == old(armings)
        invariant 0 <= k <= |old(timers)| && timers == old(timers)[k..]
        invariant forall i :: 0 <= i < k ==> Overdue(old(timers)[i], elapsed)
        invariant fired == handlers + Handlers(old(timers)[..k])
        decreases |timers|
      {
        fired := fired + [timers[0].handler];
        timers := timers[1..];
        k := k + 1;
        assert Handlers(old(timers)[..k]) == Handlers(old(timers)[..k - 1]) + [old(timers)[k - 1].handler];
      }
      n := |fired|;
      SuffixKeepsOrder(old(timers), k);
      assert LongestOverduePrefix(old(timers), elapsed, k);
    }
  }

  function Inserted(ts: seq<TimerNode>, at: nat, t: TimerNode): seq<TimerNode>
    requires at <= |ts|
  {
    ts[..at] + [t] + ts[at..]
  }

  /** The first node that waits longer. */
  function Slot(ts: seq<TimerNode>, timeout: int): (k: nat)
    ensures k <= |ts|
  {
    if ts == [] || timeout < ts[0].expire then 0 else 1 + Slot(ts[1..], timeout)
  }

  lemma {:induction false} SlotAt(ts: seq<TimerNode>, timeout: int, at: nat)
    requires at <= |ts|
    requires forall j :: 0 <= j < at ==> ts[j].expire <= timeout
    requires at < |ts| ==> timeout < ts[at].expire
    ensures Slot(ts, timeout) == at
  {
    if at > 0 {
      SlotAt(ts[1..], timeout, at - 1);
    }
  }

  ghost predicate LongestOverduePrefix(ts: seq<TimerNode>, clock: int, k: nat) {
    && k <= |ts|
    && (forall i :: 0 <= i < k ==> Overdue(ts[i], clock))
    && (k < |ts| ==> !Overdue(ts[k], clock))
  }

  lemma {:induction false} ReplacedAt(ts: seq<TimerNode>, timeout: int, handler: HandlerId, i: nat)
    requires i < |ts| && Replaces(timeout, handler, ts[i])
    requires forall j :: 0 <= j < i ==> !Replaces(timeout, handler, ts[j])
    ensures FirstReplaced(ts, timeout, handler) == i
  {
  }

  lemma RemovalKeepsOrder(ts: seq<TimerNode>, i: nat)
    requires Ordered(ts) && i < |ts|
    ensures Ordered(ts[..i] + ts[i + 1..])
    ensures forall t :: t in ts[..i] + ts[i + 1..] ==> t in ts
  {
    var rest := ts[..i] + ts[i + 1..];
    assert forall j :: 0 <= j < |rest| ==> rest[j] == ts[if j < i then j else j + 1];
  }

  lemma SuffixKeepsOrder(ts: seq<TimerNode>, k: nat)
    requires Ordered(ts) && k <= |ts|
    ensures Ordered(ts[k..])
  {
  }

  /** Where a node of the list with a new one inserted comes from. */
  lemma InsertedAt(ts: seq<TimerNode>, at: nat, t: TimerNode, j: nat)
    requires at <= |ts| && j <= |ts|
    ensures Inserted(ts, at, t)[j] == if j < at then ts[j] else if j == at then t else ts[j - 1]
  {
  }

  lemma InsertionKeepsOrder(ts: seq<TimerNode>, at: nat, t: TimerNode)
    requires Ordered(ts) && at <= |ts|
    requires forall j :: 0 <= j < at ==> ts[j].expire <= t.expire
    requires at < |ts| ==> t.expire < ts[at].expire
    requires forall j :: 0 <= j < |ts| ==> ts[j].order < t.order && ts[j].elapsed <= t.elapsed
    ensures Ordered(Inserted(ts, at, t))
    ensures forall x :: x in Inserted(ts, at, t) ==> x in ts || x == t
  {
    hide Inserted;
    var after := Inserted(ts, at, t);
    assert |after| == |ts| + 1 by { InsertedLength(ts, at, t); }
    assert forall j :: at <= j < |ts| ==> t.expire < ts[j].expire;
    forall i, j | 0 <= i < j < |after|
      ensures after[i].expire < after[j].expire || (after[i].expire == after[j].expire && after[i].order < after[j].order) {
      InsertedAt(ts, at, t, i);
      InsertedAt(ts, at, t, j);
    }
    forall i, j | 0 <= i < |after| && 0 <= j < |after| && after[i].order < after[j].order
      ensures after[i].elapsed <= after[j].elapsed {
      InsertedAt(ts, at, t, i);
      InsertedAt(ts, at, t, j);
    }
    forall x | x in after ensures x in ts || x == t {
      var j :| 0 <= j < |after| && after[j] == x;
      InsertedAt(ts, at, t, j);
    }
  }

  lemma InsertedLength(ts: seq<TimerNode>, at: nat, t: TimerNode)
    requires at <= |ts|
    ensures |Inserted(ts, at, t)| == |ts| + 1
  {
  }

  // ---- the nodes of a handler ----

  lemma {:induction false} OfJoined(ts: seq<TimerNode>, more: seq<TimerNode>, handler: HandlerId)
    ensures Of(ts + more, handler) == Of(ts, handler) + Of(more, handler)
  {
    if more == [] {
      assert ts + more == ts;
    } else {
      OfJoined(ts, more[..|more| - 1], handler);
      assert (ts + more)[..|ts + more| - 1] == ts + more[..|more| - 1];
    }
  }

  lemma OfOne(t: TimerNode, handler: HandlerId)
    ensures Of([t], handler) == if t.handler == handler then [t] else []
  {
    assert [t][..0] == [];
  }

  /** A new node joins those of its handler and leaves the others' alone. */
  lemma InsertedOf(ts: seq<TimerNode>, at: nat, t: TimerNode)
    requires at <= |ts|
    ensures forall g :: g != t.handler ==> Of(Inserted(ts, at, t), g) == Of(ts, g)
    ensures |Of(Inserted(ts, at, t), t.handler)| == |Of(ts, t.handler)| + 1
    ensures t in Of(Inserted(ts, at, t), t.handler)
    ensures forall x :: x in Of(ts, t.handler) ==> x in Of(Inserted(ts, at, t), t.handler)
  {
    hide Of;
    assert ts == ts[..at] + ts[at..];
    forall g ensures Of(Inserted(ts, at, t), g) ==
                     Of(ts[..at], g) + (if g == t.handler then [t] else []) + Of(ts[at..], g)
                     && Of(ts, g) == Of(ts[..at], g) + Of(ts[at..], g) {
      OfJoined(ts[..at], ts[at..], g);
      OfJoined(ts[..at] + [t], ts[at..], g);
      OfJoined(ts[..at], [t], g);
      OfOne(t, g);
    }
  }

  /** A handler's nodes without one node of the list. */
  lemma ErasedOf(ts: seq<TimerNode>, k: nat, g: HandlerId)
    requires k < |ts|
    ensures Of(ts, g) == Of(ts[..k], g) + (if g == ts[k].handler then [ts[k]] else []) + Of(ts[k + 1..], g)
    ensures Of(ts[..k] + ts[k + 1..], g) == Of(ts[..k], g) + Of(ts[k + 1..], g)
  {
    hide Of;
    assert ts == ts[..k] + [ts[k]] + ts[k + 1..];
    OfJoined(ts[..k] + [ts[k]], ts[k + 1..], g);
    OfJoined(ts[..k], [ts[k]], g);
    OfJoined(ts[..k], ts[k + 1..], g);
    OfOne(ts[k], g);
  }

  /** Erasing the node to be replaced: the others' stay; a handler's only node goes unless it has the timeout asked for,
      or the timeout asked for is zero. */
  lemma WithoutOf(ts: seq<TimerNode>, timeout: int, handler: HandlerId)
    ensures forall g :: g != handler ==> Of(Without(ts, timeout, handler), g) == Of(ts, g)
    ensures var rest, had := Without(ts, timeout, handler), Of(ts, handler);
            && (had == [] ==> rest == ts && FirstReplaced(ts, timeout, handler) == |ts|)
            && (|had| == 1 ==>
                  var gone := timeout < 0 || (timeout > 0 && timeout != had[0].expire);
                  Of(rest, handler) == (if gone then [] else had)
                  && (FirstReplaced(ts, timeout, handler) < |ts| <==> gone))
  {
    hide Of, FirstReplaced;
    var k := FirstReplaced(ts, timeout, handler);
    if k < |ts| {
      forall g | g != handler ensures Of(ts[..k] + ts[k + 1..], g) == Of(ts, g) {
        ErasedOf(ts, k, g);
      }
      ErasedOf(ts, k, handler);
      OnlyOne(Of(ts[..k], handler), ts[k], Of(ts[k + 1..], handler));
    } else {
      OfIsIn(ts, handler);
      if |Of(ts, handler)| == 1 {
        assert Of(ts, handler)[0] in ts && !Replaces(timeout, handler, Of(ts, handler)[0]);
      }
    }
  }

  lemma OnlyOne(before: seq<TimerNode>, t: TimerNode, after: seq<TimerNode>)
    ensures before + [t] + after != []
    ensures |before + [t] + after| == 1 ==> (before + [t] + after)[0] == t && before + after == []
  {
  }

  lemma {:induction false} OfIsIn(ts: seq<TimerNode>, handler: HandlerId)
    ensures forall t :: t in Of(ts, handler) ==> t in ts && t.handler == handler
  {
    if ts != [] {
      OfIsIn(ts[..|ts| - 1], handler);
    }
  }

  // ---- one timer ----

  function Sum(ticks: seq<nat>): nat {
    if ticks == [] then 0 else Sum(ticks[..|ticks| - 1]) + ticks[|ticks| - 1]
  }

  /** A timer alone on the list fires, once, at the first check at which more than its timeout has passed: after exactly
      its timeout it has not fired yet. */
  method ArmAndCheck(list: TimerList, timeout: int, handler: HandlerId, ticks: seq<nat>) returns (fired: seq<HandlerId>)
    requires list.Valid() && list.timers == []
    modifies list
    ensures list.Valid()
    ensures fired == if ticks != [] && Sum(ticks) > timeout then [handler] else []
    ensures list.timers == [] <==> fired != []
  {
    hide Ordered, LongestOverduePrefix, Inserted, Slot, Without, FirstReplaced, Of;
    FirstTimer(TimerNode(timeout, list.elapsed, handler, list.armings));
    list.AddTimer(timeout, handler);
    ghost var armed, t := list.elapsed, list.timers[0];
    fired := [];
    var i := 0;
    assert ticks[..0] == [];
    while i < |ticks|
      invariant 0 <= i <= |ticks| && list.Valid() && list.elapsed == armed + Sum(ticks[..i])
      invariant list.timers == if fired == [] then [t] else []
      invariant fired == if i > 0 && Sum(ticks[..i]) > timeout then [handler] else []
    {
      var n;
      ghost var before := list.timers;
      n, fired := list.CheckTimer(ticks[i], fired);
      assert ticks[..i + 1][..i] == ticks[..i];
      i := i + 1;
    }
    assert ticks[..i] == ticks;
  }

  // ---- completeness ----

  /** After a check, no overdue node is left. */
  ghost predicate FiresAll(ts: seq<TimerNode>, clock: int) {
    forall k: nat :: LongestOverduePrefix(ts, clock, k) ==> forall j :: k <= j < |ts| ==> !Overdue(ts[j], clock)
  }

  lemma {:induction false} OverduePrefixExists(ts: seq<TimerNode>, clock: int) returns (k: nat)
    ensures LongestOverduePrefix(ts, clock, k)
  {
    if ts == [] || !Overdue(ts[0], clock) {
      k := 0;
    } else {
      k := OverduePrefixExists(ts[1..], clock);
      assert forall i :: 0 < i < |ts| ==> ts[i] == ts[1..][i - 1];
      k := k + 1;
    }
  }

  /** When all timeouts are equal, whatever is overdue fires at the next check. */
  lemma EqualTimeoutsFireAll(ts: seq<TimerNode>, clock: int)
    requires Ordered(ts)
    requires forall i, j :: 0 <= i < |ts| && 0 <= j < |ts| ==> ts[i].expire == ts[j].expire
    ensures FiresAll(ts, clock)
  {
  }

  /** With mixed timeouts a check misses overdue nodes at some clock exactly when the list is not in order of the
      deadlines: some node is due later than one behind it. */
  lemma ChecksAreCompleteIff(ts: seq<TimerNode>)
    ensures (forall clock :: FiresAll(ts, clock))
            <==> forall i, j :: 0 <= i < j < |ts| ==> Deadline(ts[i]) <= Deadline(ts[j])
  {
    if forall clock :: FiresAll(ts, clock) {
      forall i, j | 0 <= i < j < |ts| ensures Deadline(ts[i]) <= Deadline(ts[j]) {
        if Deadline(ts[i]) > Deadline(ts[j]) {
          var clock := Deadline(ts[i]);
          var k := OverduePrefixExists(ts, clock);
          assert k <= i && FiresAll(ts, clock) && Overdue(ts[j], clock);
          assert false;
        }
      }
    }
    if forall i, j :: 0 <= i < j < |ts| ==> Deadline(ts[i]) <= Deadline(ts[j]) {
      forall clock ensures FiresAll(ts, clock) {
        forall k: nat, j | LongestOverduePrefix(ts, clock, k) && k <= j < |ts| ensures !Overdue(ts[j], clock) {
          assert k < j ==> Deadline(ts[k]) <= Deadline(ts[j]);
        }
      }
    }
  }

  function Deadline(t: TimerNode): int {
    t.elapsed + t.expire
  }

  lemma FirstTimer(t: TimerNode)
    ensures Without([], t.expire, t.handler) == [] && Inserted([], Slot([], t.expire), t) == [t]
  {
  }

  lemma ShortTimerGoesFirst(long: TimerNode, short: TimerNode)
    requires short.expire < long.expire && 0 < short.expire && short.handler != long.handler
    ensures Without([long], short.expire, short.handler) == [long]
    ensures Inserted([long], Slot([long], short.expire), short) == [short, long]
  {
  }

  lemma NothingFires(ts: seq<TimerNode>, clock: int, k: nat)
    requires ts != [] && !Overdue(ts[0], clock) && LongestOverduePrefix(ts, clock, k)
    ensures k == 0 && ts[k..] == ts && Handlers(ts[..k]) == []
  {
  }

  lemma OverdueBehindFirst(long: TimerNode, short: TimerNode, clock: int)
    requires !Overdue(short, clock) && Overdue(long, clock)
    ensures !FiresAll([short, long], clock)
  {
    var ts := [short, long];
    assert LongestOverduePrefix(ts, clock, 0) && Overdue(ts[1], clock);
  }

  /** A check before the first timer is overdue fires nothing, whatever waits behind it. */
  method CheckTooEarly(list: TimerList, tick: nat) returns (fired: seq<HandlerId>)
    requires list.Valid() && list.timers != [] && !Overdue(list.timers[0], list.elapsed + tick)
    modifies list
    ensures list.Valid() && list.elapsed == old(list.elapsed) + tick && list.armings == old(list.armings)
    ensures list.timers == old(list.timers) && fired == []
  {
    hide Ordered, Handlers, LongestOverduePrefix;
    ghost var before := list.timers;
    var n;
    n, fired := list.CheckTimer(tick, []);
    ghost var k :| 0 <= k <= |before| && LongestOverduePrefix(before, list.elapsed, k) && list.timers == before[k..]
                   && fired == [] + Handlers(before[..k]);
    NothingFires(before, list.elapsed, k);
  }

  const LONG := TimerNode(50, 0, 1, 0)
  const SHORT := TimerNode(5, 49, 2, 1)

  /** A long timer armed at 0, a short one at 49. */
  method LongThenShort() returns (list: TimerList)
    ensures fresh(list) && list.Valid() && list.elapsed == 49 && list.timers == [SHORT, LONG]
  {
    hide Ordered, Without, Slot, Inserted, FirstReplaced;
    list := new TimerList();
    FirstTimer(LONG);
    list.AddTimer(50, 1);
    var fired := CheckTooEarly(list, 49);
    ShortTimerGoesFirst(LONG, SHORT);
    list.AddTimer(5, 2);
  }

  /** Such lists come up: at 51 the long timer is overdue and does not fire. */
  method MixedTimeoutsMiss() returns (list: TimerList, fired: seq<HandlerId>)
    ensures list.Valid() && list.elapsed == 51 && list.timers == [SHORT, LONG]
    ensures Overdue(LONG, list.elapsed) && fired == [] && !FiresAll(list.timers, list.elapsed)
  {
    hide FiresAll;
    list := LongThenShort();
    fired := CheckTooEarly(list, 2);
    OverdueBehindFirst(LONG, SHORT, 51);
  }
}
