/** The main animation controller of the rewrite: the animation controllers
    by name (the dummy one always among them), the current animation, the
    LIFO stack of paused animations and the control queue whose events it
    processes. Plugin loading is replaced by the map passed in; event and
    thread UUIDs come in as parameters. */
module MainControl {
  import opened Wrappers
  import opened AnimationEvents
  import AnimationControl

  type Settings = AnimationControl.Settings
  type Controller = AnimationControl.Controller

  /** `DummyController.animation_name`. */
  const DummyName := "dummy"

  /** `__all_animation_controllers` after loading: the dummy controller,
      then every loaded controller by its name (a loaded one named like the
      dummy replaces it). */
  function Registered(dummy: Controller, loaded: map<string, Controller>): (m: map<string, Controller>)
    ensures DummyName in m && m.Keys == loaded.Keys + {DummyName}
    ensures forall n :: n in loaded ==> m[n] == loaded[n]
    ensures DummyName !in loaded ==> m[DummyName] == dummy
  {
    map[DummyName := dummy] + loaded
  }

  /** `__init__` with the lookup of the default animation's controller: a
      default animation name that no controller has raises KeyError;
      otherwise the main controller starts with nothing current and
      nothing paused. */
  method New(dummy: Controller, loaded: map<string, Controller>, defaultName: string,
             defaultSettings: Settings) returns (r: Result<MainController>)
    requires dummy.name == DummyName && dummy.Valid()
    requires forall n :: n in loaded ==> loaded[n].name == n && loaded[n].Valid()
    ensures r.Err? <==> defaultName != DummyName && defaultName !in loaded
    ensures r.Err? ==> r.error == KeyError
    ensures r.Ok? ==>
      && fresh(r.value) && r.value.Valid() && r.value.controllers == Registered(dummy, loaded)
      && r.value.defaultName == defaultName && r.value.defaultSettings == defaultSettings
      && r.value.current.None? && r.value.pauseStack == []
      && fresh(r.value.queue) && r.value.queue.items == [] && r.value.queue.unfinished == 0
  {
    if defaultName !in Registered(dummy, loaded) {
      return Err(KeyError);
    }
    var m := new MainController(dummy, loaded, defaultName, defaultSettings);
    return Ok(m);
  }

  class MainController {
    /** `__all_animation_controllers`. */
    const controllers: map<string, Controller>
    const defaultName: string
    const defaultSettings: Settings
    /** `__controll_queue`. */
    const queue: EventQueue<Settings>
    /** `__current_animation_controller`, by name. */
    var current: Option<string>
    /** `__pause_queue`: the last element is the top. */
    var pauseStack: seq<(string, Uuid)>

    ghost predicate Valid()
      reads this, controllers.Values
    {
      && DummyName in controllers && defaultName in controllers
      && (forall n :: n in controllers ==> controllers[n].name == n && controllers[n].Valid())
      && (current.Some? ==> current.value in controllers)
      && (forall k :: 0 <= k < |pauseStack| ==> pauseStack[k].0 in controllers)
      && queue.rule == Rewrite
    }

    /** `__init__` once the default animation's controller is found: the
        dummy controller is registered first and the loaded controllers are
        added by name after it. `New` below is `__init__` with its lookup. */
    constructor (dummy: Controller, loaded: map<string, Controller>, defaultName: string,
                 defaultSettings: Settings)
      requires dummy.name == DummyName && dummy.Valid()
      requires forall n :: n in loaded ==> loaded[n].name == n && loaded[n].Valid()
      requires defaultName in Registered(dummy, loaded)
      ensures Valid() && controllers == Registered(dummy, loaded)
      ensures this.defaultName == defaultName && this.defaultSettings == defaultSettings
      ensures current.None? && pauseStack == []
      ensures fresh(queue) && queue.items == [] && queue.tracked == [] && queue.unfinished == 0
    {
      controllers := Registered(dummy, loaded);
      this.defaultName, this.defaultSettings := defaultName, defaultSettings;
      queue := new EventQueue(Rewrite);
      current, pauseStack := None, [];
    }

    /** `__on_last_element_processed`: the most recently paused animation is
        popped and a resume event for it is put; with none paused, a start
        of the default animation without pausing is put. */
    method OnLastElementProcessed(id: EventId) returns (e: Event<Settings>)
      requires Valid()
      modifies this`pauseStack, queue`items, queue`tracked, queue`unfinished
      ensures Valid()
      ensures old(pauseStack) == [] ==>
        e == Event(id, Start(defaultName, defaultSettings, false)) && pauseStack == []
      ensures old(pauseStack) != [] ==>
        var top := old(pauseStack)[|old(pauseStack)| - 1];
        e == Event(id, Resume(top.0, top.1)) && pauseStack == old(pauseStack)[..|old(pauseStack)| - 1]
      // the queue's `put`: the event is queued unless it duplicates a tracked
      // one, which a start never does, and a task is counted either way
      ensures queue.items ==
        if Duplicate(queue.rule, old(queue.tracked), e) then old(queue.items) else old(queue.items) + [Some(e)]
      ensures queue.tracked ==
        if Duplicate(queue.rule, old(queue.tracked), e) then old(queue.tracked) else old(queue.tracked) + [e]
      ensures old(pauseStack) == [] ==> queue.items == old(queue.items) + [Some(e)]
      ensures queue.unfinished == old(queue.unfinished) + 1
    {
      if pauseStack == [] {
        e := Event(id, Start(defaultName, defaultSettings, false));
      } else {
        var top := pauseStack[|pauseStack| - 1];
        pauseStack := pauseStack[..|pauseStack| - 1];
        e := Event(id, Resume(top.0, top.1));
      }
      NeverDropped(queue.tracked, e);
      var _ := queue.Put(Some(e));
    }

    /** `__start_animation`: an unknown name changes nothing. Otherwise a
        thread is created; with `pauseCurrent` and a current animation that
        animation is paused and, if it yields a UUID, pushed; without, the
        pause stack is cleared and the current animation stopped. Then the
        new thread is started and its controller becomes current. */
    method StartAnimation(name: string, settings: Settings, pauseCurrent: bool, uuid: Uuid)
      returns (started: Option<Uuid>)
      requires Valid()
      requires name in controllers ==> uuid !in controllers[name].threads && uuid !in controllers[name].paused
      modifies this`current, this`pauseStack, controllers.Values
      ensures Valid()
      ensures name !in controllers ==>
        started.None? && current == old(current) && pauseStack == old(pauseStack)
      ensures name in controllers ==> started == Some(uuid) && current == Some(name)
      ensures name in controllers ==> controllers[name].current == Some(uuid) && controllers[name].running
      ensures name in controllers ==> controllers[name].threads[uuid] == settings
      // pausing: the previous animation's thread is pushed exactly when its pause yields it
      ensures name in controllers && pauseCurrent && old(current).Some? ==>
        var c := controllers[old(current).value];
        && (old(c.running && c.current.Some? && c.current.value in c.alive) ==>
              pauseStack == old(pauseStack) + [(old(current).value, old(c.current).value)]
              && old(c.current).value in c.paused
              && (old(current).value != name ==> c.current.None? && !c.running))
        && (!old(c.running && c.current.Some? && c.current.value in c.alive) ==>
              pauseStack == old(pauseStack) && c.paused == old(c.paused))
      // no pausing: the stack is cleared and the previous animation's thread stopped
      ensures name in controllers && !(pauseCurrent && old(current).Some?) ==> pauseStack == []
      ensures name in controllers && !pauseCurrent && old(current).Some? ==>
        var c := controllers[old(current).value];
        old(c.current.Some? && c.current.value in c.alive) ==>
          old(c.current).value !in c.threads && old(c.current).value !in c.alive
          && (old(current).value != name ==> c.current.None? && !c.running)
    {
      if name !in controllers {
        return None;
      }
      var animation := controllers[name];
      var id := animation.CreateAnimation(settings, uuid);
      SuspendCurrent(pauseCurrent, name, id);
      Launch(name, id);
      return Some(id);
    }

    /** The end of `__start_animation`: the new thread of `name` is started
        and `name` becomes current; no other controller changes. */
    method Launch(name: string, id: Uuid)
      requires Valid() && name in controllers && id in controllers[name].threads
      modifies this`current, controllers[name]
      ensures Valid() && current == Some(name) && pauseStack == old(pauseStack)
      ensures controllers[name].current == Some(id) && controllers[name].running
      ensures controllers[name].alive == old(controllers[name].alive) + {id}
      ensures controllers[name].threads == old(controllers[name].threads)
      ensures controllers[name].paused == old(controllers[name].paused)
      ensures forall n :: n in controllers && n != name ==> Untouched(controllers[n])
    {
      controllers[name].Start(id);
      current := Some(name);
    }

    /** The middle of `__start_animation`: with `pauseCurrent` and a current
        animation that animation is paused and, exactly when its pause
        yields a UUID, that UUID is pushed; otherwise the pause stack is
        cleared and the current animation stopped. The newly created
        thread `keep` of `keepName` survives. */
    method SuspendCurrent(pauseCurrent: bool, keepName: string, keep: Uuid)
      requires Valid() && keepName in controllers
      requires keep in controllers[keepName].threads && controllers[keepName].current != Some(keep)
      modifies this`current, this`pauseStack, controllers.Values
      ensures Valid() && keep in controllers[keepName].threads
      ensures controllers[keepName].threads[keep] == old(controllers[keepName].threads[keep])
      ensures forall n :: n in controllers && Some(n) != old(current) ==> Untouched(controllers[n])
      ensures pauseCurrent && old(current).Some? ==>
        current == old(current) && PausedFrom(controllers[old(current).value], pauseStack, old(pauseStack))
      ensures !(pauseCurrent && old(current).Some?) ==> pauseStack == []
      ensures !(pauseCurrent && old(current).Some?) && old(current).Some? ==>
        current.None? && StoppedFrom(controllers[old(current).value])
    {
      if pauseCurrent && current.Some? {
        var toPause := controllers[current.value];
        var p := toPause.Pause();
        if p.Some? {
          pauseStack := pauseStack + [(current.value, p.value)];
        }
      } else {
        pauseStack := [];
        StopCurrent(None);
      }
    }

    /** What `pause` did to controller `c` (whose name is current) and to
        the stack: a running, alive current thread is moved to the paused
        threads and pushed; otherwise neither changes. */
    twostate predicate PausedFrom(c: Controller, stack: seq<(string, Uuid)>, oldStack: seq<(string, Uuid)>)
      requires old(c.Valid())
      reads c
    {
      if old(c.running && c.current.Some? && c.current.value in c.alive) then
        && stack == oldStack + [(c.name, old(c.current).value)]
        && c.current.None? && !c.running && c.alive == old(c.alive)
        && c.threads == old(c.threads) - {old(c.current).value}
        && c.paused == old(c.paused)[old(c.current).value := old(c.threads)[old(c.current).value]]
      else
        stack == oldStack && Untouched(c)
    }

    /** What `stop` did to controller `c`: an alive current thread is
        stopped, joined and dropped, and `c` no longer runs; otherwise `c`
        is unchanged. */
    twostate predicate StoppedFrom(c: Controller)
      reads c
    {
      if old(c.current.Some? && c.current.value in c.alive) then
        && c.current.None? && !c.running
        && c.threads == old(c.threads) - {old(c.current).value}
        && c.alive == old(c.alive) - {old(c.current).value}
        && c.paused == old(c.paused)
      else
        Untouched(c)
    }

    /** Controller `c`'s thread state is as it was. */
    twostate predicate Untouched(c: Controller)
      reads c
    {
      && c.threads == old(c.threads) && c.paused == old(c.paused) && c.current == old(c.current)
      && c.running == old(c.running) && c.alive == old(c.alive)
    }

    /** `__stop_animation`: with a current animation whose name matches the
        stop event (or with no event) it is stopped and nothing is current;
        otherwise nothing changes. */
    method StopCurrent(eventName: Option<string>)
      requires Valid()
      modifies this`current, controllers.Values
      ensures Valid()
      ensures forall n :: n in controllers && Some(n) != old(current) ==> Untouched(controllers[n])
      ensures old(current).None? || (eventName.Some? && eventName.value != old(current).value) ==>
        current == old(current) && (old(current).Some? ==> Untouched(controllers[old(current).value]))
      ensures old(current).Some? && (eventName.None? || eventName.value == old(current).value) ==>
        current.None? && StoppedFrom(controllers[old(current).value])
    {
      if current.Some? {
        if eventName.Some? && eventName.value != current.value {
          return;
        }
        controllers[current.value].Stop();
        current := None;
      }
    }

    /** `__resume_animation`: the named controller resumes the thread and
        becomes current. */
    method ResumeAnimation(name: string, uuid: Uuid)
      requires Valid() && name in controllers
      modifies this`current, controllers[name]
      ensures Valid() && current == Some(name)
      ensures uuid !in old(controllers[name].paused) ==>
        var c := controllers[name];
        c.threads == old(c.threads) && c.paused == old(c.paused)
        && c.current == old(c.current) && c.running == old(c.running)
      ensures uuid in old(controllers[name].paused) ==>
        var c := controllers[name];
        && c.threads == old(c.threads)[uuid := old(c.paused)[uuid]]
        && c.paused == old(c.paused) - {uuid}
        && c.current == Some(uuid) && c.running
      ensures forall n :: n in controllers && n != name ==> Untouched(controllers[n])
    {
      controllers[name].Resume(uuid);
      current := Some(name);
    }

    /** `__on_animation_finished`, the callback every animation controller
        calls when one of its threads ends: with no task left in the control
        queue the last-element rule puts a resume of the most recently
        paused animation or a start of the default one; otherwise nothing
        happens. */
    method OnAnimationFinished(id: EventId) returns (put: Option<Event<Settings>>)
      requires Valid()
      modifies this`pauseStack, queue`items, queue`tracked, queue`unfinished
      ensures Valid()
      ensures old(queue.AreTasksRemaining()) ==>
        && put.None? && pauseStack == old(pauseStack)
        && queue.items == old(queue.items) && queue.tracked == old(queue.tracked)
        && queue.unfinished == old(queue.unfinished)
      ensures !old(queue.AreTasksRemaining()) ==> put.Some? && queue.unfinished == 1
      // nothing paused: the default animation is started, and that start is always queued
      ensures !old(queue.AreTasksRemaining()) && old(pauseStack) == [] ==>
        && put == Some(Event(id, Start(defaultName, defaultSettings, false))) && pauseStack == []
        && queue.items == old(queue.items) + [put]
      // otherwise the top of the pause stack is popped into a resume event
      ensures !old(queue.AreTasksRemaining()) && old(pauseStack) != [] ==>
        var top := old(pauseStack)[|old(pauseStack)| - 1];
        && put == Some(Event(id, Resume(top.0, top.1)))
        && pauseStack == old(pauseStack)[..|old(pauseStack)| - 1]
        && queue.items == if Duplicate(queue.rule, old(queue.tracked), put.value) then old(queue.items)
                          else old(queue.items) + [put]
    {
      if queue.AreTasksRemaining() {
        return None;
      }
      var e := OnLastElementProcessed(id);
      return Some(e);
    }

    /** A thread of controller `name` ends: the controller's finish callback
        (the thread is no longer alive, the running flag is released), then
        `__on_animation_finished`. The other controllers are untouched. */
    method ThreadFinished(name: string, uuid: Uuid, id: EventId) returns (put: Option<Event<Settings>>)
      requires Valid() && name in controllers
      modifies controllers[name], this`pauseStack, queue`items, queue`tracked, queue`unfinished
      ensures Valid()
      ensures var c := controllers[name];
        && c.alive == old(c.alive) - {uuid} && !c.running
        && c.threads == old(c.threads) && c.paused == old(c.paused) && c.current == old(c.current)
      ensures forall n :: n in controllers && n != name ==> Untouched(controllers[n])
      ensures put.Some? <==> !old(queue.AreTasksRemaining())
      ensures queue.unfinished == if put.Some? then 1 else old(queue.unfinished)
      ensures put.None? ==> pauseStack == old(pauseStack) && queue.items == old(queue.items)
      ensures put.Some? && old(pauseStack) == [] ==>
        put == Some(Event(id, Start(defaultName, defaultSettings, false))) && queue.items == old(queue.items) + [put]
    {
      controllers[name].Finished(uuid);
      put := OnAnimationFinished(id);
    }

    /** `stop_animation`: with no current animation, or a name that is not
        the current one's, nothing is put; otherwise a stop event for the
        current animation is put. */
    method StopAnimation(name: Option<string>, id: EventId) returns (put: Option<Event<Settings>>)
      requires Valid()
      modifies queue`items, queue`tracked, queue`unfinished
      ensures current.None? || (name.Some? && name.value != current.value) ==>
        put.None? && queue.items == old(queue.items) && queue.unfinished == old(queue.unfinished)
      ensures current.Some? && (name.None? || name.value == current.value) ==>
        && put == Some(Event(id, Stop(current.value))) && queue.unfinished == old(queue.unfinished) + 1
        && queue.items == if Duplicate(queue.rule, old(queue.tracked), put.value) then old(queue.items)
                          else old(queue.items) + [put]
    {
      if current.None? {
        return None;
      }
      if name.Some? && name.value != current.value {
        return None;
      }
      var e := Event(id, Stop(current.value));
      var _ := queue.Put(Some(e));
      return Some(e);
    }

    /** One turn of `run` for an event taken from the queue: the event is
        dispatched, then marked done. */
    method Process(item: Option<Event<Settings>>, uuid: Uuid, followId: EventId)
      requires Valid()
      requires item.Some? && item.value.kind.Start? && item.value.kind.name in controllers ==>
        uuid !in controllers[item.value.kind.name].threads
        && uuid !in controllers[item.value.kind.name].paused
      requires item.Some? && item.value.kind.Resume? ==> item.value.kind.controller in controllers
      modifies this`current, this`pauseStack, controllers.Values, queue
      ensures Valid()
    {
      if item.Some? {
        Dispatch(item.value, uuid, followId);
      }
      var _ := queue.TaskDone(item);
    }

    /** The dispatch by type; after a stop, if it was the last task, the
        follow-up event is put and chained to it. */
    method Dispatch(e: Event<Settings>, uuid: Uuid, followId: EventId)
      requires Valid()
      requires e.kind.Start? && e.kind.name in controllers ==>
        uuid !in controllers[e.kind.name].threads && uuid !in controllers[e.kind.name].paused
      requires e.kind.Resume? ==> e.kind.controller in controllers
      modifies this`current, this`pauseStack, controllers.Values, queue
      ensures Valid()
    {
      match e.kind {
        case Start(name, settings, pauseCurrent) =>
          var _ := StartAnimation(name, settings, pauseCurrent, uuid);
        case Resume(name, u) =>
          ResumeAnimation(name, u);
        case Stop(name) =>
          StopCurrent(Some(name));
          if queue.IsLastTaskRunning() {
            var follow := OnLastElementProcessed(followId);
            queue.Chain(e.id, follow.id);
          }
      }
    }

    /** `is_animation_running`: false for an unknown name. */
    function IsAnimationRunning(name: string): (r: bool)
      requires Valid()
      reads this, controllers.Values
      ensures name !in controllers ==> !r
      ensures name in controllers ==> r == controllers[name].running
    {
      name in controllers && controllers[name].running
    }

    /** `current_animation_name`: "" when nothing is current. */
    function CurrentAnimationName(): (r: string)
      requires Valid()
      reads this, controllers.Values
      ensures current.None? ==> r == ""
      ensures current.Some? ==> r == current.value && r in controllers && controllers[r].name == r
    {
      if current.Some? then controllers[current.value].name else ""
    }
  }
}
