/** The legacy application's choice of the next animation: the gameframe
    and BLM generators that walk their selections in turn, the generator
    that alternates between them, the priority of a resumed animation, the
    clock and the moodlight over those generators, and the moodlight mode
    switch. Times are seconds; random draws are parameters. */
module RibbaPiControl {
  import opened Wrappers
  import GameframePlayer = Gameframe

  /** An animation the application creates, with what it is created from. */
  datatype Anim =
    | Gameframe(folder: string, repeat: int)
    | Blm(path: string, repeat: int)
    | Clock
    | Moodlight(mode: string)
    | Text(text: string)

  /** Where the alternating generator stands: before its gameframe check,
      before its BLM check, or before its check that neither is active. */
  datatype Check = GameframeCheck | BlmCheck | NeitherCheck

  /** What the alternating generator yields from. */
  datatype Source = FromGameframes | FromBlms | Nothing

  /** One `next` of `animation_generator`: the checks run in their loop
      order from where the generator stopped, and the first one that holds
      yields; the generator then stands at the check after it. */
  function NextSource(at: Check, gameframe: bool, blm: bool): (r: (Source, Check))
    ensures r.0 == FromGameframes ==> gameframe && r.1 == BlmCheck
    ensures r.0 == FromBlms ==> blm && r.1 == NeitherCheck
    ensures r.0 == Nothing ==> r.1 == GameframeCheck
  {
    match at
    case GameframeCheck =>
      if gameframe then (FromGameframes, BlmCheck)
      else if blm then (FromBlms, NeitherCheck)
      else (Nothing, GameframeCheck)
    case BlmCheck =>
      if blm then (FromBlms, NeitherCheck)
      else if !(gameframe || blm) then (Nothing, GameframeCheck)
      else (FromGameframes, BlmCheck)
    case NeitherCheck =>
      if !(gameframe || blm) then (Nothing, GameframeCheck)
      else if gameframe then (FromGameframes, BlmCheck)
      else (FromBlms, NeitherCheck)
  }

  /** The generator yields nothing exactly when neither kind is active, and
      only from an active kind. */
  lemma NothingOnlyWhenInactive(at: Check, gameframe: bool, blm: bool)
    ensures NextSource(at, gameframe, blm).0 == Nothing <==> !gameframe && !blm
    ensures NextSource(at, gameframe, blm).0 == FromGameframes ==> gameframe
    ensures NextSource(at, gameframe, blm).0 == FromBlms ==> blm
  {
  }

  /** With both kinds active the generator alternates between them. */
  lemma BothActiveAlternate(at: Check)
    ensures var first := NextSource(at, true, true);
      var second := NextSource(first.1, true, true);
      first.0 != Nothing && second.0 != Nothing && first.0 != second.0
  {
  }

  /** With one kind active every `next` yields from it. */
  lemma OneActiveRepeats(at: Check, gameframe: bool)
    ensures NextSource(at, gameframe, !gameframe).0 == (if gameframe then FromGameframes else FromBlms)
  {
  }

  /** The sequential step of `gameframe_generator` and `blm_generator`. */
  function SequentialNext(i: int, n: nat): (r: nat)
    requires n > 0 && i >= -1
    ensures r < n
    ensures 0 <= i + 1 < n ==> r == i + 1
    ensures i + 1 == n ==> r == 0
  {
    (i + 1) % n
  }

  /** The index after a number of sequential steps from the start value -1
      over a selection of n entries. */
  function IndexAfter(steps: nat, n: nat): (i: int)
    requires n > 0
    ensures i >= -1
  {
    if steps == 0 then -1 else SequentialNext(IndexAfter(steps - 1, n), n)
  }

  /** The sequential generator shows entries 0, 1, ..., n-1, 0, ...: the
      k-th animation (counting from 0) is entry k mod n. */
  lemma {:induction false} SequentialOrder(k: nat, n: nat)
    requires n > 0
    ensures IndexAfter(k + 1, n) == k % n
  {
    if k > 0 {
      SequentialOrder(k - 1, n);
      GameframePlayer.NextIndex(k - 1, n);
    }
  }

  /** The application's attributes that take part in choosing animations. */
  datatype Snapshot = Snapshot(
    gameframeActivated: bool, gameframeRepeat: int, gameframeSelected: seq<string>, gameframeIndex: int,
    blmActivated: bool, blmRepeat: int, blmSelected: seq<string>, blmIndex: int,
    clockActivated: bool, clockLastShown: int, clockShowEvery: int,
    moodlightActivated: bool, moodlightMode: string, playRandom: bool,
    at: Check, interrupted: Option<Anim>, current: Option<Anim>, currentAlive: bool,
    stopRequests: seq<Anim>)

  class RibbaPi {
    var gameframeActivated: bool
    var gameframeRepeat: int
    var gameframeSelected: seq<string>
    /** The `i` of the gameframe generator. */
    var gameframeIndex: int
    var blmActivated: bool
    var blmRepeat: int
    var blmSelected: seq<string>
    /** The `i` of the BLM generator. */
    var blmIndex: int
    var clockActivated: bool
    var clockLastShown: int
    var clockShowEvery: int
    var moodlightActivated: bool
    var moodlightMode: string
    var playRandom: bool
    /** Where `animation_generator` stands. */
    var at: Check
    /** The class and keyword arguments of an animation to resume. */
    var interrupted: Option<Anim>
    var current: Option<Anim>
    /** Whether the current animation's thread is alive. */
    var currentAlive: bool
    /** The animations asked to stop, in order. */
    var stopRequests: seq<Anim>

    function State(): Snapshot
      reads this
    {
      Snapshot(gameframeActivated, gameframeRepeat, gameframeSelected, gameframeIndex,
               blmActivated, blmRepeat, blmSelected, blmIndex,
               clockActivated, clockLastShown, clockShowEvery,
               moodlightActivated, moodlightMode, playRandom,
               at, interrupted, current, currentAlive, stopRequests)
    }

    predicate Valid()
      reads this
    {
      gameframeIndex >= -1 && blmIndex >= -1
    }

    /** `__init__` after `refresh_animations`: every installed animation is
        selected, gameframes and the clock are active. */
    constructor (gameframes: seq<string>, blms: seq<string>, now: int)
      ensures Valid()
      ensures State() == Snapshot(true, -1, gameframes, -1, false, -1, blms, -1,
                                  true, now, 600, false, "colorwheel", false,
                                  GameframeCheck, None, None, false, [])
    {
      gameframeActivated := true;
      gameframeRepeat := -1;
      gameframeSelected := gameframes;
      gameframeIndex := -1;
      blmActivated := false;
      blmRepeat := -1;
      blmSelected := blms;
      blmIndex := -1;
      clockActivated := true;
      clockLastShown := now;
      clockShowEvery := 600;
      moodlightActivated := false;
      moodlightMode := "colorwheel";
      playRandom := false;
      at := GameframeCheck;
      interrupted := None;
      current := None;
      currentAlive := false;
      stopRequests := [];
    }

    /** `disable_animations`: every activation flag and random play off;
        the frame says that nothing else changes. */
    method DisableAnimations()
      modifies this`gameframeActivated, this`blmActivated, this`clockActivated,
               this`moodlightActivated, this`playRandom
      ensures !gameframeActivated && !blmActivated && !clockActivated
      ensures !moodlightActivated && !playRandom
    {
      gameframeActivated := false;
      blmActivated := false;
      clockActivated := false;
      moodlightActivated := false;
      playRandom := false;
    }

    /** One `next` of `gameframe_generator`: nothing for an empty selection,
        otherwise the next entry in turn (or the drawn one when playing at
        random). */
    method NextGameframe(draw: nat) returns (a: Option<Anim>)
      requires Valid()
      requires playRandom && |gameframeSelected| > 0 ==> draw < |gameframeSelected|
      modifies this`gameframeIndex
      ensures Valid()
      ensures |gameframeSelected| == 0 ==> a == None && gameframeIndex == old(gameframeIndex)
      ensures |gameframeSelected| > 0 ==>
        && gameframeIndex == (if playRandom then draw else SequentialNext(old(gameframeIndex), |gameframeSelected|))
        && a == Some(Gameframe(gameframeSelected[gameframeIndex], gameframeRepeat))
    {
      if |gameframeSelected| == 0 {
        return None;
      }
      if playRandom {
        gameframeIndex := draw;
      } else {
        gameframeIndex := SequentialNext(gameframeIndex, |gameframeSelected|);
      }
      return Some(Gameframe(gameframeSelected[gameframeIndex], gameframeRepeat));
    }

    /** One `next` of `blm_generator`, the same walk over the BLM selection. */
    method NextBlm(draw: nat) returns (a: Option<Anim>)
      requires Valid()
      requires playRandom && |blmSelected| > 0 ==> draw < |blmSelected|
      modifies this`blmIndex
      ensures Valid()
      ensures |blmSelected| == 0 ==> a == None && blmIndex == old(blmIndex)
      ensures |blmSelected| > 0 ==>
        && blmIndex == (if playRandom then draw else SequentialNext(old(blmIndex), |blmSelected|))
        && a == Some(Blm(blmSelected[blmIndex], blmRepeat))
    {
      if |blmSelected| == 0 {
        return None;
      }
      if playRandom {
        blmIndex := draw;
      } else {
        blmIndex := SequentialNext(blmIndex, |blmSelected|);
      }
      return Some(Blm(blmSelected[blmIndex], blmRepeat));
    }

    /** One `next` of `animation_generator`. */
    method NextFromGenerators(drawGameframe: nat, drawBlm: nat) returns (a: Option<Anim>)
      requires Valid()
      requires playRandom && |gameframeSelected| > 0 ==> drawGameframe < |gameframeSelected|
      requires playRandom && |blmSelected| > 0 ==> drawBlm < |blmSelected|
      modifies this`at, this`gameframeIndex, this`blmIndex
      ensures Valid()
      ensures at == NextSource(old(at), gameframeActivated, blmActivated).1
      ensures NextSource(old(at), gameframeActivated, blmActivated).0 == Nothing ==>
        a == None && gameframeIndex == old(gameframeIndex) && blmIndex == old(blmIndex)
      ensures a.Some? && a.value.Gameframe? ==>
        gameframeActivated && a.value.folder in gameframeSelected && blmIndex == old(blmIndex)
      ensures a.Some? && a.value.Blm? ==>
        blmActivated && a.value.path in blmSelected && gameframeIndex == old(gameframeIndex)
      ensures a.Some? ==> a.value.Gameframe? || a.value.Blm?
      ensures GeneratorYield(drawGameframe, drawBlm, a)
    {
      var next := NextSource(at, gameframeActivated, blmActivated);
      at := next.1;
      match next.0
      case FromGameframes =>
        a := NextGameframe(drawGameframe);
      case FromBlms =>
        a := NextBlm(drawBlm);
      case Nothing =>
        a := None;
    }

    /** What one `next` of `animation_generator` yields: from the kind
        `NextSource` picks, the entry that kind's generator walks to (the
        next one in turn, or the drawn one when playing at random; nothing
        for an empty selection), the other kind's generator left where it
        was; nothing when neither kind is active. */
    twostate predicate GeneratorYield(drawGameframe: nat, drawBlm: nat, new a: Option<Anim>)
      requires old(Valid())
      reads this
    {
      match NextSource(old(at), gameframeActivated, blmActivated).0
      case FromGameframes =>
        && blmIndex == old(blmIndex)
        && if |gameframeSelected| == 0 then a == None && gameframeIndex == old(gameframeIndex)
           else
             && gameframeIndex == (if playRandom then drawGameframe
                                   else SequentialNext(old(gameframeIndex), |gameframeSelected|))
             && 0 <= gameframeIndex < |gameframeSelected|
             && a == Some(Gameframe(gameframeSelected[gameframeIndex], gameframeRepeat))
      case FromBlms =>
        && gameframeIndex == old(gameframeIndex)
        && if |blmSelected| == 0 then a == None && blmIndex == old(blmIndex)
           else
             && blmIndex == (if playRandom then drawBlm else SequentialNext(old(blmIndex), |blmSelected|))
             && 0 <= blmIndex < |blmSelected|
             && a == Some(Blm(blmSelected[blmIndex], blmRepeat))
      case Nothing =>
        a == None && gameframeIndex == old(gameframeIndex) && blmIndex == old(blmIndex)
    }

    /** `get_next_animation`: an interrupted animation first (and forget
        it), then the clock when it is due (and note the time), then the
        moodlight, and otherwise the generators. */
    method GetNextAnimation(now: int, drawGameframe: nat, drawBlm: nat) returns (a: Option<Anim>)
      requires Valid()
      requires playRandom && |gameframeSelected| > 0 ==> drawGameframe < |gameframeSelected|
      requires playRandom && |blmSelected| > 0 ==> drawBlm < |blmSelected|
      modifies this`interrupted, this`clockLastShown, this`at, this`gameframeIndex, this`blmIndex
      ensures Valid()
      ensures old(interrupted).Some? ==>
        && a == old(interrupted) && interrupted.None?
        && unchanged(this`clockLastShown, this`at, this`gameframeIndex, this`blmIndex)
      ensures old(interrupted).None? && clockActivated && old(clockLastShown) + clockShowEvery < now ==>
        && a == Some(Clock) && clockLastShown == now
        && unchanged(this`interrupted, this`at, this`gameframeIndex, this`blmIndex)
      ensures (old(interrupted).None? && !(clockActivated && old(clockLastShown) + clockShowEvery < now)
        && moodlightActivated) ==>
        a == Some(Moodlight(moodlightMode)) && unchanged(this)
      ensures (old(interrupted).None? && !(clockActivated && old(clockLastShown) + clockShowEvery < now)
        && !moodlightActivated) ==>
        && at == NextSource(old(at), gameframeActivated, blmActivated).1
        && (a.Some? ==> a.value.Gameframe? || a.value.Blm?)
        && (NextSource(old(at), gameframeActivated, blmActivated).0 == Nothing ==> a == None)
        && GeneratorYield(drawGameframe, drawBlm, a)
        && unchanged(this`interrupted, this`clockLastShown)
    {
      if interrupted.Some? {
        a := interrupted;
        interrupted := None;
      } else if clockActivated && clockLastShown + clockShowEvery < now {
        a := Some(Clock);
        clockLastShown := now;
      } else if moodlightActivated {
        a := Some(Moodlight(moodlightMode));
      } else {
        a := NextFromGenerators(drawGameframe, drawBlm);
      }
    }

    /** `stop_current_animation`: a running animation is asked to stop, and
        remembered for resuming when asked to. */
    method StopCurrentAnimation(resume: bool)
      modifies this`interrupted, this`stopRequests
      ensures current.Some? && currentAlive ==>
        && interrupted == (if resume then current else old(interrupted))
        && stopRequests == old(stopRequests) + [current.value]
      ensures !(current.Some? && currentAlive) ==> unchanged(this)
    {
      if current.Some? && currentAlive {
        if resume {
          interrupted := current;
        }
        stopRequests := stopRequests + [current.value];
      }
    }

    /** `set_moodlight_mode`: only while the moodlight runs, modes 1, 2 and 3
        pick its pattern (others keep it), every other animation kind is
        switched off, the moodlight stays on and the running animation is
        asked to stop. */
    method SetMoodlightMode(mode: int)
      modifies this`moodlightMode, this`gameframeActivated, this`blmActivated, this`clockActivated,
               this`moodlightActivated, this`playRandom, this`interrupted, this`stopRequests
      ensures old(current).None? || !old(current).value.Moodlight? ==> unchanged(this)
      ensures old(current).Some? && old(current).value.Moodlight? ==>
        && moodlightMode == MoodMode(mode, old(moodlightMode))
        && moodlightActivated
        && !gameframeActivated && !blmActivated && !clockActivated && !playRandom
        && interrupted == old(interrupted)
        && stopRequests == old(stopRequests) + (if old(currentAlive) then [old(current).value] else [])
    {
      if current.Some? && current.value.Moodlight? {
        moodlightMode := MoodMode(mode, moodlightMode);
        DisableAnimations();
        moodlightActivated := true;
        StopCurrentAnimation(false);
      }
    }
  }

  /** The pattern a moodlight mode number selects. */
  function MoodMode(mode: int, previous: string): (r: string)
    ensures mode == 1 ==> r == "colorwheel"
    ensures mode == 2 ==> r == "cyclecolors"
    ensures mode == 3 ==> r == "wish_down_up"
    ensures !(1 <= mode <= 3) ==> r == previous
  {
    if mode == 1 then "colorwheel"
    else if mode == 2 then "cyclecolors"
    else if mode == 3 then "wish_down_up"
    else previous
  }
}
