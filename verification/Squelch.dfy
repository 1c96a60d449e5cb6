/** The client-side squelch gate of the KiwiSDR receiver: two thresholds, sampled every tenth
    sound frame. Levels are S-meter units; the source's dBm values are an increasing affine image
    of them, so every comparison is the same. */
module Squelch {
  import opened Options

  datatype Gate = Gate(enabled: bool, openAt: int, closeAt: int, open: bool)

  function Clamp(lo: int, hi: int, x: int): int {
    if x < lo then lo else if x > hi then hi else x
  }

  /** Applying a configuration. Enabling the squelch closes the gate, disabling it opens it. */
  function Configured(enabled: bool, threshold: int, hysteresis: int): (g: Gate)
    ensures g.enabled == enabled && g.open == !enabled
    ensures 0 <= g.closeAt <= g.openAt <= 150
    ensures threshold <= 0 ==> g.openAt == 0
    ensures threshold >= 150 ==> g.openAt == 150
    ensures hysteresis <= 0 ==> g.closeAt == g.openAt
    ensures hysteresis >= g.openAt ==> g.closeAt == 0
    ensures 0 <= hysteresis <= threshold <= 150 ==> g.openAt == threshold && g.openAt - g.closeAt == hysteresis
  {
    var t := Clamp(0, 150, threshold);
    var h := if hysteresis > t then t else if hysteresis < 0 then 0 else hysteresis;
    Gate(enabled, t, t - h, !enabled)
  }

  function Sampled(g: Gate, s: nat): Gate {
    if !g.enabled then g
    else if s >= g.openAt then g.(open := true)
    else if s < g.closeAt then g.(open := false)
    else g
  }

  /** One sample: an enabled gate opens at its upper threshold, closes below its lower one, and in
      between stays as it is; a disabled one never moves. */
  lemma {:induction false} SampledExactly(g: Gate, s: nat)
    ensures Sampled(g, s).open <==> if !g.enabled then g.open else s >= g.openAt || (g.open && s >= g.closeAt)
    ensures Sampled(g, s).(open := g.open) == g
  {
  }

  function Run(g: Gate, samples: seq<nat>): Gate {
    if samples == [] then g else Sampled(Run(g, samples[..|samples| - 1]), samples[|samples| - 1])
  }

  /** What a level says by itself: open, close, or nothing inside the band. */
  function Verdict(g: Gate, s: nat): Option<bool> {
    if s >= g.openAt then Some(true) else if s < g.closeAt then Some(false) else None
  }

  /** `i` is the last sample outside the band [closeAt, openAt). */
  ghost predicate LastOutside(g: Gate, samples: seq<nat>, i: int) {
    && 0 <= i < |samples| && Verdict(g, samples[i]).Some?
    && forall j | i < j < |samples| :: Verdict(g, samples[j]).None?
  }

  /** The gate is always the verdict of the last sample outside the band, or what it was at the
      start when every sample lies inside. */
  lemma {:induction false} GateIsLastVerdict(g: Gate, samples: seq<nat>)
    requires g.enabled
    ensures Run(g, samples).(open := g.open) == g
    ensures forall i | LastOutside(g, samples, i) :: Run(g, samples).open == Verdict(g, samples[i]).value
    ensures (forall j | 0 <= j < |samples| :: Verdict(g, samples[j]).None?) ==> Run(g, samples).open == g.open
  {
    if samples != [] {
      var k := |samples| - 1;
      var init := samples[..k];
      GateIsLastVerdict(g, init);
      forall i | LastOutside(g, samples, i) ensures Run(g, samples).open == Verdict(g, samples[i]).value {
        if i < k {
          assert Verdict(g, samples[k]).None?;
          assert LastOutside(g, init, i);
        }
      }
    }
  }

  // ---------------------------------------------------------------------------
  // Anti-chatter
  // ---------------------------------------------------------------------------

  function Flips(g: Gate, samples: seq<nat>): nat
    decreases samples
  {
    if samples == [] then 0
    else (if Sampled(g, samples[0]).open != g.open then 1 else 0) + Flips(Sampled(g, samples[0]), samples[1..])
  }

  function Distance(x: int, y: int): nat {
    if x < y then y - x else x - y
  }

  /** Total variation of the level. */
  function Variation(samples: seq<nat>): nat {
    if |samples| < 2 then 0 else Distance(samples[0], samples[1]) + Variation(samples[1..])
  }

  /** How far `p` still is from the level that would have put the gate where it is. */
  function Slack(g: Gate, p: nat): nat {
    if g.open then (if p >= g.openAt then 0 else g.openAt - p)
    else if p < g.closeAt then 0 else p - (g.closeAt - 1)
  }

  lemma {:induction false} OneMore(n: nat, h: nat)
    ensures (1 + n) * h == h + n * h
  {
  }

  lemma {:induction false} VariationFrom(g: Gate, p: nat, samples: seq<nat>)
    requires g.enabled && g.closeAt <= g.openAt
    ensures Variation([p] + samples) + Slack(g, p) >= Flips(g, samples) * (g.openAt - g.closeAt + 1)
    decreases samples
  {
    if samples != [] {
      var s, rest := samples[0], samples[1..];
      assert ([p] + samples)[1..] == samples == [s] + rest;
      VariationFrom(Sampled(g, s), s, rest);
      OneMore(Flips(Sampled(g, s), rest), g.openAt - g.closeAt + 1);
    }
  }

  /** Under one configuration, n flips of the gate force the level to travel at least
      (n - 1) * (hysteresis + 1) units. */
  lemma {:induction false} NoChatter(g: Gate, samples: seq<nat>)
    requires g.enabled && g.closeAt <= g.openAt
    requires Flips(g, samples) >= 1
    ensures Variation(samples) >= (Flips(g, samples) - 1) * (g.openAt - g.closeAt + 1)
    decreases samples
  {
    var s, rest := samples[0], samples[1..];
    assert samples == [s] + rest;
    if Sampled(g, s).open != g.open {
      VariationFrom(Sampled(g, s), s, rest);
    } else {
      NoChatter(g, rest);
    }
  }

  /** The bound is met: swinging between closeAt - 1 and openAt flips the gate every sample. */
  lemma {:induction false} ChatterBoundIsSharp(g: Gate, n: nat)
    requires g.enabled && 0 < g.closeAt <= g.openAt
    ensures var samples := Swing(g, n + 1);
            Flips(g, samples) == n + 1 && Variation(samples) == n * (g.openAt - g.closeAt + 1)
    decreases n
  {
    var next := g.(open := !g.open);
    assert Swing(g, n + 1)[1..] == Swing(next, n);
    assert Flips(next, []) == 0;
    if n > 0 {
      ChatterBoundIsSharp(next, n - 1);
      OneMore(n - 1, g.openAt - g.closeAt + 1);
      assert Distance(Swing(g, n + 1)[0], Swing(next, n)[0]) == g.openAt - g.closeAt + 1;
    }
  }

  function Swing(g: Gate, n: nat): (r: seq<nat>)
    requires 0 < g.closeAt <= g.openAt
    ensures |r| == n
    decreases n
  {
    if n == 0 then []
    else [if g.open then g.closeAt - 1 else g.openAt] + Swing(g.(open := !g.open), n - 1)
  }

  // ---------------------------------------------------------------------------
  // The receive loop
  // ---------------------------------------------------------------------------

  /** A sound frame: its level, whether its audio is compressed or stereo, and its audio bytes. */
  datatype Frame = Frame(level: nat, foreign: bool, pcmBytes: nat)

  predicate IsSampled(n: nat) {
    n % 10 == 0
  }

  /** The levels the gate looks at: those of every tenth frame since the client was created. */
  function Decimated(count: nat, frames: seq<Frame>): seq<nat> {
    if frames == [] then []
    else Decimated(count, frames[..|frames| - 1])
         + if IsSampled(count + |frames|) then [frames[|frames| - 1].level] else []
  }

  predicate Playable(f: Frame) {
    !f.foreign && f.pcmBytes % 2 == 0 && f.pcmBytes > 0
  }

  /** The gate after frame number `n`, and after all of `frames`, one by one. */
  function AfterFrame(g: Gate, n: nat, f: Frame): Gate {
    if IsSampled(n) then Sampled(g, f.level) else g
  }

  function AfterFrames(g: Gate, count: nat, frames: seq<Frame>): Gate {
    if frames == [] then g
    else AfterFrame(AfterFrames(g, count, frames[..|frames| - 1]), count + |frames|, frames[|frames| - 1])
  }

  /** Going frame by frame is the run over every tenth frame's level. */
  lemma {:induction false} DecimationComposes(g: Gate, count: nat, frames: seq<Frame>)
    ensures AfterFrames(g, count, frames) == Run(g, Decimated(count, frames))
  {
    if frames != [] {
      var init, last := frames[..|frames| - 1], frames[|frames| - 1];
      var seen := Decimated(count, init);
      DecimationComposes(g, count, init);
      if IsSampled(count + |frames|) {
        assert (seen + [last.level])[..|seen|] == seen;
      } else {
        assert seen + [] == seen;
      }
    }
  }

  /** The frames that are played, when the gate starts as `g` after `count` frames: the playable ones
      for which the gate, as the samples up to and with that frame leave it, is open or disabled. */
  function Played(g: Gate, count: nat, frames: seq<Frame>): seq<Frame> {
    if frames == [] then []
    else
      var now := AfterFrames(g, count, frames);
      var last := frames[|frames| - 1];
      Played(g, count, frames[..|frames| - 1]) + if Playable(last) && (!now.enabled || now.open) then [last] else []
  }

  /** The gate looks at every tenth frame since the client was created, and at no other. */
  lemma {:induction false} EveryTenthFrame(count: nat, frames: seq<Frame>)
    ensures |Decimated(count, frames)| == (count + |frames|) / 10 - count / 10
    ensures forall k | 0 <= k < |Decimated(count, frames)| ::
              var i := 10 * (count / 10 + k + 1) - count - 1;
              0 <= i < |frames| && Decimated(count, frames)[k] == frames[i].level
  {
    if frames != [] {
      EveryTenthFrame(count, frames[..|frames| - 1]);
    }
  }

  lemma {:induction false} OneMoreFrame(g: Gate, count: nat, frames: seq<Frame>, i: nat)
    requires i < |frames|
    ensures var now := AfterFrame(AfterFrames(g, count, frames[..i]), count + i + 1, frames[i]);
            && AfterFrames(g, count, frames[..i + 1]) == now
            && Played(g, count, frames[..i + 1]) == Played(g, count, frames[..i])
               + if Playable(frames[i]) && (!now.enabled || now.open) then [frames[i]] else []
  {
    assert frames[..i + 1][..i] == frames[..i];
  }

  lemma {:induction false} RunKeepsSettings(g: Gate, samples: seq<nat>)
    ensures Run(g, samples).(open := g.open) == g
    ensures !g.enabled ==> Run(g, samples) == g
  {
    if samples != [] {
      RunKeepsSettings(g, samples[..|samples| - 1]);
    }
  }

  function PlayableOnly(frames: seq<Frame>): seq<Frame> {
    if frames == [] then []
    else PlayableOnly(frames[..|frames| - 1]) + if Playable(frames[|frames| - 1]) then [frames[|frames| - 1]] else []
  }

  /** A disabled squelch plays exactly the playable frames. */
  lemma {:induction false} DisabledPlaysAll(g: Gate, count: nat, frames: seq<Frame>)
    requires !g.enabled
    ensures Played(g, count, frames) == PlayableOnly(frames)
  {
    if frames != [] {
      DecimationComposes(g, count, frames);
      RunKeepsSettings(g, Decimated(count, frames));
      DisabledPlaysAll(g, count, frames[..|frames| - 1]);
    }
  }

  lemma {:induction false} PlayableMeans(f: Frame)
    ensures Playable(f) <==> !f.foreign && f.pcmBytes >= 2 && exists samples: nat :: f.pcmBytes == 2 * samples
  {
    if Playable(f) {
      assert f.pcmBytes == 2 * (f.pcmBytes / 2);
    }
  }

  /** Which frames those are: the uncompressed mono ones with at least one whole sample and no half one. */
  lemma {:induction false} PlayableExactly(frames: seq<Frame>, f: Frame)
    ensures multiset(PlayableOnly(frames))[f]
            == if !f.foreign && f.pcmBytes >= 2 && exists samples: nat :: f.pcmBytes == 2 * samples then multiset(frames)[f] else 0
  {
    PlayableMeans(f);
    if frames != [] {
      var n := |frames| - 1;
      PlayableExactly(frames[..n], f);
      assert frames == frames[..n] + [frames[n]];
    }
  }

  lemma {:induction false} DecimatedLevels(count: nat, frames: seq<Frame>, bound: int)
    requires forall f <- frames :: f.level < bound
    ensures forall i | 0 <= i < |Decimated(count, frames)| :: Decimated(count, frames)[i] < bound
  {
    if frames != [] {
      var init := frames[..|frames| - 1];
      assert frames == init + [frames[|frames| - 1]];
      DecimatedLevels(count, init, bound);
    }
  }

  /** Right after the squelch is enabled, nothing is played until a frame reaches the threshold. */
  lemma {:induction false} QuietBandIsSilent(threshold: int, hysteresis: int, count: nat, frames: seq<Frame>)
    requires forall f <- frames :: f.level < Clamp(0, 150, threshold)
    ensures Played(Configured(true, threshold, hysteresis), count, frames) == []
  {
    if frames != [] {
      var init := frames[..|frames| - 1];
      assert frames == init + [frames[|frames| - 1]];
      QuietBandIsSilent(threshold, hysteresis, count, init);
      DecimationComposes(Configured(true, threshold, hysteresis), count, frames);
      DecimatedLevels(count, frames, Clamp(0, 150, threshold));
      SilentUntilOpened(threshold, hysteresis, Decimated(count, frames));
      RunKeepsSettings(Configured(true, threshold, hysteresis), Decimated(count, frames));
    }
  }

  class Receiver {
    var gate: Gate
    var frameCount: nat

    constructor ()
      ensures frameCount == 0 && !gate.enabled && gate.open
    {
      gate, frameCount := Gate(false, 270, 170, true), 0;
    }

    method SetSquelch(enabled: bool, threshold: int, hysteresis: int)
      modifies `gate
      ensures gate == Configured(enabled, threshold, hysteresis)
    {
      var t := if threshold > 150 then 150 else threshold;
      t := if t < 0 then 0 else t;
      var h := if hysteresis > t then t else hysteresis;
      h := if h < 0 then 0 else h;
      gate := Gate(enabled, t, t - h, !enabled);
      if !enabled {
        gate := gate.(open := true);
      }
    }

    method OnFrame(f: Frame) returns (plays: bool)
      modifies this
      ensures frameCount == old(frameCount) + 1
      ensures gate == AfterFrame(old(gate), frameCount, f)
      ensures plays <==> Playable(f) && (!gate.enabled || gate.open)
    {
      frameCount := frameCount + 1;
      if frameCount % 10 == 0 {
        if gate.enabled {
          if f.level >= gate.openAt {
            gate := gate.(open := true);
          } else if f.level < gate.closeAt {
            gate := gate.(open := false);
          }
        }
      }
      plays := !f.foreign && f.pcmBytes % 2 == 0 && f.pcmBytes > 0 && (!gate.enabled || gate.open);
    }

    /** The receive loop over any frames, under one configuration. */
    method ReceiveLoop(frames: seq<Frame>) returns (played: seq<Frame>)
      modifies this
      ensures frameCount == old(frameCount) + |frames|
      ensures gate == Run(old(gate), Decimated(old(frameCount), frames))
      ensures played == Played(old(gate), old(frameCount), frames)
    {
      played := [];
      ghost var g, count := gate, frameCount;
      for i := 0 to |frames|
        invariant frameCount == count + i
        invariant gate == AfterFrames(g, count, frames[..i])
        invariant played == Played(g, count, frames[..i])
      {
        OneMoreFrame(g, count, frames, i);
        var plays := OnFrame(frames[i]);
        if plays {
          played := played + [frames[i]];
        }
      }
      assert frames[..|frames|] == frames;
      DecimationComposes(g, count, frames);
    }
  }

  /** A freshly enabled squelch is silent until a sampled level reaches the threshold. */
  lemma {:induction false} SilentUntilOpened(threshold: int, hysteresis: int, samples: seq<nat>)
    requires forall i | 0 <= i < |samples| :: samples[i] < Clamp(0, 150, threshold)
    ensures !Run(Configured(true, threshold, hysteresis), samples).open
  {
    var g := Configured(true, threshold, hysteresis);
    GateIsLastVerdict(g, samples);
    if exists i :: LastOutside(g, samples, i) {
      var i :| LastOutside(g, samples, i);
      assert Verdict(g, samples[i]) == Some(false);
    } else {
      AllInside(g, samples);
    }
  }

  lemma {:induction false} AllInside(g: Gate, samples: seq<nat>)
    requires !exists i :: LastOutside(g, samples, i)
    ensures forall j | 0 <= j < |samples| :: Verdict(g, samples[j]).None?
    decreases samples
  {
    if samples != [] {
      var init := samples[..|samples| - 1];
      assert !LastOutside(g, samples, |samples| - 1);
      forall i ensures !LastOutside(g, init, i) {
        if LastOutside(g, init, i) {
          assert LastOutside(g, samples, i);
        }
      }
      AllInside(g, init);
    }
  }
}
