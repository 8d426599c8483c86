/** The control queue of the animation controller, in both generations:
    a FIFO of start, stop and resume events (or `None`), a list of the events
    not yet marked done that is used to drop duplicates, and the
    `unfinished_tasks` counter of Python's `queue.Queue`. Threads, the mutex
    and the blocking `get` are not modelled: `Get` requires a non-empty queue. */
module AnimationEvents {
  import opened Wrappers

  /** The identity of an event object (Python compares events by identity). */
  type EventId = nat
  /** An animation thread's UUID. */
  type Uuid = nat
  /** The event payloads; `S` is the animation settings type, compared
      (by the legacy queue, as raw dicts) only for equality. */
  datatype EventKind<S> =
    | Start(name: string, settings: S, pauseCurrent: bool)
    | Stop(name: string)
    | Resume(controller: string, uuid: Uuid)

  datatype Event<S> = Event(id: EventId, kind: EventKind<S>)

  /** Which generation's duplicate rule the queue applies. */
  datatype Rule = Rewrite | Legacy

  /** `item` duplicates the tracked event `e`. The rewrite drops a resume of
      the same thread and a stop of the same animation; the legacy queue drops
      a resume of the same thread and a start with equal raw settings. */
  predicate SameAs<S(==)>(rule: Rule, e: Event<S>, item: Event<S>) {
    match rule
    case Rewrite =>
      || (e.kind.Resume? && item.kind.Resume? && e.kind.uuid == item.kind.uuid)
      || (e.kind.Stop? && item.kind.Stop? && e.kind.name == item.kind.name)
    case Legacy =>
      || (e.kind.Resume? && item.kind.Resume? && e.kind.uuid == item.kind.uuid)
      || (e.kind.Start? && item.kind.Start? && e.kind.settings == item.kind.settings)
  }

  predicate Duplicate<S(==)>(rule: Rule, tracked: seq<Event<S>>, item: Event<S>) {
    exists k :: 0 <= k < |tracked| && SameAs(rule, tracked[k], item)
  }

  /** Starts are never dropped by the rewrite, stops never by the legacy queue. */
  lemma NeverDropped<S>(tracked: seq<Event<S>>, item: Event<S>)
    ensures item.kind.Start? ==> !Duplicate(Rewrite, tracked, item)
    ensures item.kind.Stop? ==> !Duplicate(Legacy, tracked, item)
  {
  }

  /** The position of the first occurrence of `x` in `s`. */
  function FirstIndex<S(==)>(s: seq<Event<S>>, x: Event<S>): (i: nat)
    requires x in s
    ensures i < |s| && s[i] == x && x !in s[..i]
  {
    if s[0] == x then 0
    else
      var i := FirstIndex(s[1..], x);
      assert s[..i + 1] == [s[0]] + s[1..][..i];
      i + 1
  }

  /** `list.remove`: the first occurrence of `x` is taken out, the other
      events keep their order. */
  function RemoveFirst<S(==)>(s: seq<Event<S>>, x: Event<S>): (r: seq<Event<S>>)
    requires x in s
    ensures |r| == |s| - 1
  {
    var i := FirstIndex(s, x);
    s[..i] + s[i + 1..]
  }

  class EventQueue<S(==)> {
    const rule: Rule
    /** The FIFO of `queue.Queue`. */
    var items: seq<Option<Event<S>>>
    /** `__all_events`: accepted events not yet marked done. */
    var tracked: seq<Event<S>>
    /** `unfinished_tasks` of `queue.Queue`. */
    var unfinished: nat
    /** The events whose `done` was called. */
    var done: set<EventId>
    /** `chain`: the event a waiter also waits for after this one. */
    var next: map<EventId, EventId>
    /** Items taken by `Get` and not yet passed to `TaskDone`. */
    ghost var taken: nat

    /** The bookkeeping the standard queue intends: every counted task is
        still queued or taken and not yet done. */
    ghost predicate Balanced()
      reads this
    {
      unfinished == |items| + taken
    }

    constructor (rule: Rule)
      ensures this.rule == rule && items == [] && tracked == [] && unfinished == 0
      ensures done == {} && next == map[] && taken == 0
      ensures Balanced()
    {
      this.rule := rule;
      items, tracked, unfinished, done, next := [], [], 0, {}, map[];
      taken := 0;
    }

    /** `_put` under `queue.Queue.put`: `None` is always queued and never
        tracked; an event is dropped when it duplicates a tracked event,
        otherwise tracked and queued. The standard `put` counts the item as
        an unfinished task whether or not `_put` kept it. */
    method Put(item: Option<Event<S>>) returns (accepted: bool)
      modifies this`items, this`tracked, this`unfinished
      ensures accepted == (item.None? || !Duplicate(rule, old(tracked), item.value))
      ensures items == if accepted then old(items) + [item] else old(items)
      ensures tracked == if accepted && item.Some? then old(tracked) + [item.value] else old(tracked)
      ensures unfinished == old(unfinished) + 1
    {
      accepted := Keep(item);
      if accepted {
        if item.Some? {
          tracked := tracked + [item.value];
        }
        items := items + [item];
      }
      unfinished := unfinished + 1;
    }

    /** The put the bookkeeping needs: only a queued item is counted. */
    method PutCounted(item: Option<Event<S>>) returns (accepted: bool)
      requires Balanced()
      modifies this`items, this`tracked, this`unfinished
      ensures Balanced()
      ensures accepted == (item.None? || !Duplicate(rule, old(tracked), item.value))
      ensures items == if accepted then old(items) + [item] else old(items)
      ensures tracked == if accepted && item.Some? then old(tracked) + [item.value] else old(tracked)
      ensures unfinished == old(unfinished) + if accepted then 1 else 0
    {
      accepted := Keep(item);
      if accepted {
        if item.Some? {
          tracked := tracked + [item.value];
        }
        items := items + [item];
        unfinished := unfinished + 1;
      }
    }

    /** The duplicate scan of `_put` over the tracked events. */
    method Keep(item: Option<Event<S>>) returns (keep: bool)
      ensures keep == (item.None? || !Duplicate(rule, tracked, item.value))
    {
      if item.None? {
        return true;
      }
      var k := 0;
      while k < |tracked|
        invariant 0 <= k <= |tracked|
        invariant forall j :: 0 <= j < k ==> !SameAs(rule, tracked[j], item.value)
      {
        if SameAs(rule, tracked[k], item.value) {
          return false;
        }
        k := k + 1;
      }
      return true;
    }

    /** `get` on a non-empty queue. */
    method Get() returns (item: Option<Event<S>>)
      requires items != []
      modifies this`items, this`taken
      ensures item == old(items)[0] && items == old(items)[1..]
      ensures taken == old(taken) + 1
      ensures old(Balanced()) ==> Balanced()
    {
      item := items[0];
      items := items[1..];
      taken := taken + 1;
    }

    /** `task_done(event)`: the standard counter is decremented (ValueError
        when it is already zero, before anything changes); then the event is
        removed from the tracked list (ValueError when it is not there) and
        marked done. */
    method TaskDone(item: Option<Event<S>>) returns (error: Option<PyError>)
      modifies this`unfinished, this`tracked, this`done, this`taken
      ensures old(unfinished) == 0 ==>
        error == Some(ValueError) && unfinished == 0 && tracked == old(tracked)
        && done == old(done) && taken == old(taken)
      ensures old(unfinished) > 0 ==> unfinished == old(unfinished) - 1
      ensures old(unfinished) > 0 ==> taken == if old(taken) > 0 then old(taken) - 1 else 0
      ensures old(unfinished) > 0 && item.None? ==>
        error.None? && tracked == old(tracked) && done == old(done)
      ensures old(unfinished) > 0 && item.Some? && item.value !in old(tracked) ==>
        error == Some(ValueError) && tracked == old(tracked) && done == old(done)
      ensures old(unfinished) > 0 && item.Some? && item.value in old(tracked) ==>
        error.None? && tracked == RemoveFirst(old(tracked), item.value)
        && done == old(done) + {item.value.id}
      ensures old(Balanced()) && old(taken) > 0 ==> Balanced()
    {
      if unfinished == 0 {
        return Some(ValueError);
      }
      unfinished := unfinished - 1;
      taken := if taken > 0 then taken - 1 else 0;
      if item.None? {
        return None;
      }
      if item.value !in tracked {
        return Some(ValueError);
      }
      tracked := RemoveFirst(tracked, item.value);
      done := done + {item.value.id};
      return None;
    }

    /** `chain`: a waiter on `e` also waits for `following`. */
    method Chain(e: EventId, following: EventId)
      modifies this`next
      ensures next == old(next)[e := following]
    {
      next := next[e := following];
    }

    /** `are_tasks_remaining`. */
    function AreTasksRemaining(): bool
      reads this
    {
      unfinished > 0
    }

    /** `is_last_task_running`: nothing queued and at most the task in hand. */
    function IsLastTaskRunning(): bool
      reads this
    {
      |items| == 0 && unfinished <= 1
    }

    /** With balanced bookkeeping tasks remain exactly while something is
        queued or taken and not yet done. */
    lemma RemainingMeansPending()
      requires Balanced()
      ensures AreTasksRemaining() <==> (items != [] || taken > 0)
    {
    }
  }

  /** `wait` on event `e` returns once `e` and, following the chain, the
      events chained after it are done; `fuel` bounds the chain followed. */
  predicate Released(done: set<EventId>, next: map<EventId, EventId>, e: EventId, fuel: nat)
    decreases fuel
  {
    e in done && (e in next && fuel > 0 ==> Released(done, next, next[e], fuel - 1))
  }

  /** A chained waiter is released only after the event it is chained to. */
  lemma ReleasedFollowsChain(done: set<EventId>, next: map<EventId, EventId>, e: EventId, fuel: nat)
    requires Released(done, next, e, fuel + 1) && e in next
    ensures next[e] in done
  {
  }

  /** As written: a stop for an animation whose stop is already tracked is
      dropped but still counted, so after the kept stop is processed nothing
      is queued or in hand and yet a task remains, for good. */
  method DroppedStopStaysUnfinished() returns (remaining: bool, queued: nat)
    ensures remaining && queued == 0
  {
    var q := new EventQueue<int>(Rewrite);
    var first: Event<int> := Event(1, Stop("clock"));
    var a := q.Put(Some(first));
    var second: Event<int> := Event(2, Stop("clock"));
    var b := q.Put(Some(second));
    assert SameAs(Rewrite, q.tracked[0], second);
    var got := q.Get();
    var err := q.TaskDone(got);
    remaining, queued := q.AreTasksRemaining(), |q.items|;
  }

  /** Corrected: with `PutCounted` the same sequence leaves no task. */
  method DroppedStopCounted() returns (remaining: bool, queued: nat)
    ensures !remaining && queued == 0
  {
    var q := new EventQueue<int>(Rewrite);
    var first: Event<int> := Event(1, Stop("clock"));
    var a := q.PutCounted(Some(first));
    var second: Event<int> := Event(2, Stop("clock"));
    var b := q.PutCounted(Some(second));
    assert SameAs(Rewrite, q.tracked[0], second);
    var got := q.Get();
    var err := q.TaskDone(got);
    q.RemainingMeansPending();
    remaining, queued := q.AreTasksRemaining(), |q.items|;
  }
}
