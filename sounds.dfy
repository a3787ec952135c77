/** Model of the sound-effect debouncer of src/utils/sounds.js.

    The module keeps ONE timestamp, `lastPlayedTime`, shared by every sound
    effect it exports. A call plays its sound only when strictly more than
    `DebounceTime` milliseconds have passed since the last call that played.
    The clock (`Date.now()`) is a parameter; the audio element is reduced to
    its `currentTime` field. */
module Sounds {

  /** Milliseconds that must be strictly exceeded between two plays. */
  const DebounceTime: int := 100

  /** The sound effects the module exports. */
  datatype SoundName = Hover | Click

  /** Whether a call at time `now` plays, given the timestamp of the last play. */
  predicate Plays(lastPlayed: int, now: int) {
    now - lastPlayed > DebounceTime
  }

  /** The shared timestamp after a call at time `now`. */
  function NextLastPlayed(lastPlayed: int, now: int): int {
    if Plays(lastPlayed, now) then now else lastPlayed
  }

  /** One call of `playSound`: which sound, and the clock reading it saw. */
  datatype Call = Call(sound: SoundName, now: int)

  /** The shared timestamp after the calls `calls`, made in order, starting from `lastPlayed`. */
  function LastPlayedAfter(lastPlayed: int, calls: seq<Call>): (r: int)
    ensures r >= lastPlayed
    ensures r == lastPlayed || exists i :: 0 <= i < |calls| && r == calls[i].now
    decreases |calls|
  {
    if calls == [] then lastPlayed
    else
      var before := LastPlayedAfter(lastPlayed, calls[..|calls| - 1]);
      var r := NextLastPlayed(before, calls[|calls| - 1].now);
      assert r == before || r == calls[|calls| - 1].now;
      assert forall i :: 0 <= i < |calls| - 1 ==> calls[..|calls| - 1][i] == calls[i];
      r
  }

  /** Whether call number `i` of `calls` played its sound. */
  predicate PlayedAt(lastPlayed: int, calls: seq<Call>, i: nat)
    requires i < |calls|
  {
    Plays(LastPlayedAfter(lastPlayed, calls[..i]), calls[i].now)
  }

  /** The shared timestamp never goes back: a later prefix of the calls leaves it at least as large. */
  lemma {:induction false} LastPlayedMonotone(lastPlayed: int, calls: seq<Call>, i: nat, j: nat)
    requires i <= j <= |calls|
    ensures LastPlayedAfter(lastPlayed, calls[..i]) <= LastPlayedAfter(lastPlayed, calls[..j])
    decreases j - i
  {
    if i < j {
      LastPlayedMonotone(lastPlayed, calls, i, j - 1);
      assert calls[..j][..j - 1] == calls[..j - 1];
    }
  }

  /** After a call that played, the shared timestamp is that call's clock reading. */
  lemma PlayRecordsTime(lastPlayed: int, calls: seq<Call>, i: nat)
    requires i < |calls| && PlayedAt(lastPlayed, calls, i)
    ensures LastPlayedAfter(lastPlayed, calls[..i + 1]) == calls[i].now
  {
    assert calls[..i + 1][..i] == calls[..i];
  }

  /** Any two calls that played are more than `DebounceTime` apart, whichever
      sounds they were for, since the timestamp is shared by all sounds. */
  lemma PlaysAreSpaced(lastPlayed: int, calls: seq<Call>, i: nat, j: nat)
    requires i < j < |calls|
    requires PlayedAt(lastPlayed, calls, i) && PlayedAt(lastPlayed, calls, j)
    ensures calls[j].now - calls[i].now > DebounceTime
  {
    PlayRecordsTime(lastPlayed, calls, i);
    LastPlayedMonotone(lastPlayed, calls, i + 1, j);
  }

  /** With the module's initial timestamp 0, the very first call plays exactly when the clock reads more than 100. */
  lemma FirstCallFromInitialState(calls: seq<Call>)
    requires |calls| > 0
    ensures PlayedAt(0, calls, 0) <==> calls[0].now > 100
  {
    assert calls[..0] == [];
  }

  /** The audio element of one sound effect; only its playback position is modelled. */
  class Sound {
    var currentTime: real

    constructor (position: real)
      ensures currentTime == position
    {
      currentTime := position;
    }
  }

  /** The module state of sounds.js: the shared `lastPlayedTime`. */
  class SoundPlayer {
    var lastPlayedTime: int

    /** Module load: `lastPlayedTime` starts at 0. */
    constructor ()
      ensures lastPlayedTime == 0
    {
      lastPlayedTime := 0;
    }

    /** `playSound(sound)` with the clock reading `now`; `played` says whether `sound.play()` was issued. */
    method PlaySound(sound: Sound, now: int) returns (played: bool)
      modifies this, sound
      ensures played <==> now - old(lastPlayedTime) > DebounceTime
      ensures lastPlayedTime == NextLastPlayed(old(lastPlayedTime), now)
      ensures played ==> sound.currentTime == 0.0 && lastPlayedTime == now
      ensures !played ==> sound.currentTime == old(sound.currentTime) && lastPlayedTime == old(lastPlayedTime)
    {
      played := false;
      if now - lastPlayedTime > DebounceTime {
        sound.currentTime := 0.0;
        played := true;
        lastPlayedTime := now;
      }
    }
  }

  /** What a caller can rely on: from module load, a call at 50 ms is silent, one at 150 ms
      plays, and a call of ANOTHER sound at 250 ms, exactly 100 ms later, is silent,
      while one at 251 ms plays. */
  method SharedDebounceClient(hover: Sound, click: Sound)
    returns (first: bool, second: bool, third: bool, fourth: bool)
    modifies hover, click
    ensures !first && second && !third && fourth
  {
    var player := new SoundPlayer();
    first := player.PlaySound(hover, 50);
    second := player.PlaySound(hover, 150);
    third := player.PlaySound(click, 250);
    fourth := player.PlaySound(click, 251);
  }
}
