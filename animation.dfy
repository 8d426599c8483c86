/** The animation base of the rewrite: the repeat countdown of an animation
    thread, and the per-animation controller that creates, starts, pauses,
    resumes and stops animation threads. Threads are identified by their
    UUID; whether a thread is alive is a set the model keeps, entered by
    `start` and left when the thread finishes. */
module AnimationControl {
  import opened Wrappers

  type Uuid = nat

  // ------------------------------------------------------------ repeat

  /** How many passes an animation makes for a `repeat` setting: `None` for
      -1 (forever), the value itself when positive, one pass otherwise. */
  function Passes(repeat: int): (n: Option<nat>)
    ensures n.None? <==> repeat == -1
    ensures n.Some? ==> n.value >= 1 && (repeat > 0 <==> n.value == repeat)
  {
    if repeat == -1 then None
    else if repeat > 0 then Some(repeat)
    else Some(1)
  }

  /** The repeat state of an animation thread: `_repeat` and
      `__remaining_repeat`. */
  class Repeat {
    const repeat: int
    var remaining: int

    constructor (repeat: int)
      ensures this.repeat == repeat && remaining == repeat - 1
    {
      this.repeat := repeat;
      remaining := repeat - 1;
    }

    /** `is_next_iteration`. */
    function IsNextIteration(): (more: bool)
      reads this
      ensures repeat == 0 ==> !more
      ensures repeat == -1 ==> more
      ensures repeat != 0 && repeat != -1 ==> (more <==> remaining > 0)
    {
      if repeat == 0 then false
      else if repeat == -1 then true
      else remaining > 0
    }

    /** The countdown step of `run` after a finished pass. */
    method CountDown()
      modifies this
      ensures remaining == old(remaining) - 1
    {
      remaining := remaining - 1;
    }
  }

  /** The `run` loop of an animation over `render_next_frame` for an
      animation that puts `framesPerPass` frames per pass and starts over
      when another iteration is due. The stop event is set after `budget`
      loop turns; pausing is not modelled. Returns the frames put and the
      passes begun. */
  method Run(repeat: int, framesPerPass: nat, budget: nat) returns (frames: nat, passes: nat)
    ensures Passes(repeat).Some? && budget >= Passes(repeat).value * (framesPerPass + 1) ==>
      passes == Passes(repeat).value && frames == passes * framesPerPass
    ensures Passes(repeat).Some? ==> passes <= Passes(repeat).value
    ensures passes >= 1 && frames <= passes * framesPerPass
  {
    var r := new Repeat(repeat);
    var position := 0;
    var turns := 0;
    var finished := false;
    frames, passes := 0, 1;
    while turns < budget
      invariant 0 <= position <= framesPerPass && turns <= budget
      invariant passes >= 1 && frames == (passes - 1) * framesPerPass + position
      invariant r.remaining == repeat - passes
      invariant r.repeat == repeat
      invariant Passes(repeat).Some? ==> passes <= Passes(repeat).value
      invariant turns == (passes - 1) * (framesPerPass + 1) + position
      invariant !finished
    {
      turns := turns + 1;
      // render_next_frame
      if position < framesPerPass {
        position := position + 1;
        frames := frames + 1;
      } else if r.IsNextIteration() {
        r.CountDown();
        position := 0;
        passes := passes + 1;
      } else {
        finished := true;
        break;
      }
    }
    PassArithmetic(passes, framesPerPass, position);
    if Passes(repeat).Some? && budget >= Passes(repeat).value * (framesPerPass + 1) {
      var n := Passes(repeat).value;
      if !finished {
        MulMonotone(passes, n, framesPerPass + 1);
        assert false;
      }
    }
  }

  /** Passes begun so far bound the frames put and the loop turns taken. */
  lemma PassArithmetic(passes: nat, framesPerPass: nat, position: nat)
    requires passes >= 1 && position <= framesPerPass
    ensures (passes - 1) * framesPerPass + position <= passes * framesPerPass
    ensures (passes - 1) * (framesPerPass + 1) + position < passes * (framesPerPass + 1)
    ensures position == framesPerPass ==> (passes - 1) * framesPerPass + position == passes * framesPerPass
  {
  }

  lemma MulMonotone(a: int, b: int, n: int)
    requires n >= 0
    ensures a <= b ==> a * n <= b * n
  {
  }

  // ------------------------------------------------------------ variant files

  /** A resolved path as its components. */
  type Path = seq<string>

  /** `dir in path.parents`: the directory is a proper prefix of the path. */
  predicate InsideDir(dir: Path, path: Path) {
    |dir| < |path| && path[..|dir|] == dir
  }

  // ------------------------------------------------------------ controller

  /** An animation settings object: variant, parameter (both only compared
      for presence here) and repeat. */
  datatype Settings = Settings(variant: Option<string>, parameter: Option<string>, repeat: int)

  /** A variant of the animation's variant enum: its name and value (a path). */
  datatype Variant = Variant(name: string, value: string)

  /** A request forwarded to the subclass hook `_add_dynamic_variant` or
      `_remove_dynamic_variant`. */
  datatype VariantRequest = AddVariant(fileName: string) | RemoveVariant(v: Variant)

  class Controller {
    /** `animation_name`. */
    const name: string
    /** `accepts_dynamic_variant`. */
    const acceptsDynamicVariant: bool
    /** The members of `variant_enum` (empty for an enum without members
        or no enum at all). */
    var variants: seq<Variant>
    /** `__animation_threads`. */
    var threads: map<Uuid, Settings>
    /** `__paused_animation_threads`. */
    var paused: map<Uuid, Settings>
    /** `_current_animation`, by UUID. */
    var current: Option<Uuid>
    /** `__animation_running_event`. */
    var running: bool
    /** The threads that are alive (`is_alive`). */
    var alive: set<Uuid>
    /** The calls forwarded to the variant hooks, in order. */
    var requests: seq<VariantRequest>

    /** A thread is either active or paused, and the current one is active. */
    ghost predicate Valid()
      reads this
    {
      && threads.Keys !! paused.Keys
      && (current.Some? ==> current.value in threads)
    }

    constructor (name: string, acceptsDynamicVariant: bool, variants: seq<Variant>)
      ensures Valid() && this.name == name && this.acceptsDynamicVariant == acceptsDynamicVariant
      ensures this.variants == variants && threads == map[] && paused == map[]
      ensures current.None? && !running && alive == {} && requests == []
    {
      this.name, this.acceptsDynamicVariant, this.variants := name, acceptsDynamicVariant, variants;
      threads, paused, current, running, alive, requests := map[], map[], None, false, {}, [];
    }

    /** `create_animation`: the new thread is registered under a fresh UUID
        (the UUID generator is a parameter). */
    method CreateAnimation(settings: Settings, uuid: Uuid) returns (id: Uuid)
      requires Valid() && uuid !in threads && uuid !in paused
      modifies this`threads
      ensures Valid() && id == uuid && threads == old(threads)[uuid := settings]
    {
      threads := threads[uuid := settings];
      id := uuid;
    }

    /** `start`: an unknown UUID changes nothing; otherwise the thread
        becomes current, running and alive. */
    method Start(uuid: Uuid)
      requires Valid()
      modifies this`current, this`running, this`alive
      ensures Valid()
      ensures uuid !in threads ==> current == old(current) && running == old(running) && alive == old(alive)
      ensures uuid in threads ==> current == Some(uuid) && running && alive == old(alive) + {uuid}
    {
      if uuid !in threads {
        return;
      }
      current := Some(uuid);
      running := true;
      alive := alive + {uuid};
    }

    /** `pause`: a running, alive current thread moves to the paused
        threads and is returned; otherwise nothing changes and `None` is
        returned. The pop cannot fail: the current thread is registered. */
    method Pause() returns (r: Option<Uuid>)
      requires Valid()
      modifies this`threads, this`paused, this`current, this`running
      ensures Valid()
      ensures old(running && current.Some? && current.value in alive) ==>
        && r == old(current) && current.None? && !running
        && threads == old(threads) - {r.value}
        && paused == old(paused)[r.value := old(threads)[r.value]]
      ensures !old(running && current.Some? && current.value in alive) ==>
        r.None? && threads == old(threads) && paused == old(paused)
        && current == old(current) && running == old(running)
    {
      if running && current.Some? && current.value in alive {
        var uuid := current.value;
        running := false;
        paused := paused[uuid := threads[uuid]];
        threads := threads - {uuid};
        current := None;
        return Some(uuid);
      }
      return None;
    }

    /** `resume`: an unknown paused UUID changes nothing; otherwise the
        thread moves back to the active threads and becomes current. */
    method Resume(uuid: Uuid)
      requires Valid()
      modifies this`threads, this`paused, this`current, this`running
      ensures Valid()
      ensures uuid !in old(paused) ==>
        threads == old(threads) && paused == old(paused)
        && current == old(current) && running == old(running)
      ensures uuid in old(paused) ==>
        && threads == old(threads)[uuid := old(paused)[uuid]]
        && paused == old(paused) - {uuid}
        && current == Some(uuid) && running
    {
      if uuid !in paused {
        return;
      }
      var t := paused[uuid];
      paused := paused - {uuid};
      running := true;
      threads := threads[uuid := t];
      current := Some(uuid);
    }

    /** `stop`: an alive current thread is stopped and joined (it is no
        longer alive), unregistered, and nothing is current or running. */
    method Stop()
      requires Valid()
      modifies this`threads, this`current, this`running, this`alive
      ensures Valid()
      ensures old(current.Some? && current.value in alive) ==>
        && threads == old(threads) - {old(current).value}
        && current.None? && !running && alive == old(alive) - {old(current).value}
      ensures !old(current.Some? && current.value in alive) ==>
        threads == old(threads) && current == old(current)
        && running == old(running) && alive == old(alive)
    {
      if current.Some? && current.value in alive {
        var uuid := current.value;
        alive := alive - {uuid};
        running := false;
        threads := threads - {uuid};
        current := None;
      }
    }

    /** The finish callback of a thread: it is no longer alive and the
        running flag is released. The on-finish callable that follows is the
        main controller's, modelled by `MainController.ThreadFinished`. */
    method Finished(uuid: Uuid)
      requires Valid()
      modifies this`alive, this`running
      ensures Valid() && alive == old(alive) - {uuid} && !running
    {
      alive := alive - {uuid};
      running := false;
    }

    /** `add_dynamic_variant`: forwarded only when the animation accepts
        dynamic variants. */
    method AddDynamicVariant(fileName: string)
      modifies this`requests
      ensures requests == if acceptsDynamicVariant then old(requests) + [AddVariant(fileName)]
                          else old(requests)
    {
      if !acceptsDynamicVariant {
        return;
      }
      requests := requests + [AddVariant(fileName)];
    }

    /** `remove_dynamic_variant` as written: forwarded when the animation
        accepts dynamic variants and a member has the variant's name (the
        value test compares a member's value with itself). */
    method RemoveDynamicVariant(variant: Variant)
      modifies this`requests
      ensures requests == if acceptsDynamicVariant && FoundByName(variants, variant)
                          then old(requests) + [RemoveVariant(variant)] else old(requests)
    {
      if !acceptsDynamicVariant {
        return;
      }
      var k := 0;
      while k < |variants|
        invariant 0 <= k <= |variants|
        invariant forall j :: 0 <= j < k ==> variants[j].name != variant.name
      {
        var v := variants[k];
        if v.name == variant.name && v.value == v.value {
          requests := requests + [RemoveVariant(variant)];
          return;
        }
        k := k + 1;
      }
    }

    /** `remove_dynamic_variant` as evidently intended: forwarded when the
        animation accepts dynamic variants and a member has the variant's
        name and value. */
    method RemoveDynamicVariantMatching(variant: Variant)
      modifies this`requests
      ensures requests == if acceptsDynamicVariant && FoundByNameAndValue(variants, variant)
                          then old(requests) + [RemoveVariant(variant)] else old(requests)
    {
      if !acceptsDynamicVariant {
        return;
      }
      var k := 0;
      while k < |variants|
        invariant 0 <= k <= |variants|
        invariant forall j :: 0 <= j < k ==> variants[j] != variant
      {
        var v := variants[k];
        if v.name == variant.name && v.value == variant.value {
          requests := requests + [RemoveVariant(variant)];
          return;
        }
        k := k + 1;
      }
    }

    /** `current_animation` is running: the controller's `is_running`. */
    function IsRunning(): bool
      reads this
    {
      running
    }
  }

  predicate FoundByName(variants: seq<Variant>, v: Variant) {
    exists j :: 0 <= j < |variants| && variants[j].name == v.name
  }

  /** The intended test: a member with the variant's name and value. */
  predicate FoundByNameAndValue(variants: seq<Variant>, v: Variant) {
    exists j :: 0 <= j < |variants| && variants[j] == v
  }

  /** The intended test implies the written one, but a variant with a
      member's name and another value passes only the written test. */
  lemma NameOnlyMatch(variants: seq<Variant>, v: Variant)
    ensures FoundByNameAndValue(variants, v) ==> FoundByName(variants, v)
    ensures variants == [Variant("a", "/x/a.blm")] ==>
      FoundByName(variants, Variant("a", "/y/a.blm"))
      && !FoundByNameAndValue(variants, Variant("a", "/y/a.blm"))
  {
    if variants == [Variant("a", "/x/a.blm")] {
      assert variants[0].name == "a";
      assert variants[0] != Variant("a", "/y/a.blm");
    }
  }
}
