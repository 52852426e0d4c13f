/** Turning ticks into seconds (`_ticks_to_seconds`) and which tempo is in effect when. */
module TempoMap {
  import opened Products
  import opened Wrappers
  import opened Sorting
  import opened MidiTrack

  const DEFAULT_TEMPO: nat := 500_000

  /** Tempo events are ordered as (tick, tempo) pairs. */
  predicate TempoLeq(a: TempoEvent, b: TempoEvent) {
    a.tick < b.tick || (a.tick == b.tick && a.tempo <= b.tempo)
  }

  /** The tempo in effect during tick `u`: that of the last entry at or before it. */
  ghost function EffectiveTempo(tempos: seq<TempoEvent>, u: nat): nat {
    if tempos == [] then DEFAULT_TEMPO
    else if tempos[|tempos| - 1].tick <= u then tempos[|tempos| - 1].tempo
    else EffectiveTempo(tempos[..|tempos| - 1], u)
  }

  /** Microseconds per quarter note summed over the ticks of [lo, hi). */
  ghost function TempoSum(tempos: seq<TempoEvent>, lo: nat, hi: nat): nat
    requires lo <= hi
    decreases hi - lo
  {
    if lo == hi then 0 else TempoSum(tempos, lo, hi - 1) + EffectiveTempo(tempos, hi - 1)
  }

  /** Ticks of a given tempo sum last this many seconds. */
  ghost function Seconds(tempoSum: nat, ticksPerQuarter: nat): real
    requires ticksPerQuarter > 0
  {
    tempoSum as real / ticksPerQuarter as real / 1000000.0
  }

  lemma SecondsAdd(a: nat, b: nat, ticksPerQuarter: nat)
    requires ticksPerQuarter > 0
    ensures Seconds(a + b, ticksPerQuarter) == Seconds(a, ticksPerQuarter) + Seconds(b, ticksPerQuarter)
  {
    var t := ticksPerQuarter as real;
    var x, y, z := a as real / t, b as real / t, (a + b) as real / t;
    assert x * t == a as real && y * t == b as real && z * t == (a + b) as real;
    assert (x + y) * t == x * t + y * t;
  }

  lemma SecondsMonotone(a: nat, b: nat, ticksPerQuarter: nat)
    requires ticksPerQuarter > 0 && a <= b
    ensures Seconds(a, ticksPerQuarter) <= Seconds(b, ticksPerQuarter)
  {
    SecondsAdd(a, b - a, ticksPerQuarter);
    assert Seconds(b - a, ticksPerQuarter) >= 0.0;
  }

  lemma {:induction false} TempoSumSplit(tempos: seq<TempoEvent>, lo: nat, mid: nat, hi: nat)
    requires lo <= mid <= hi
    ensures TempoSum(tempos, lo, hi) == TempoSum(tempos, lo, mid) + TempoSum(tempos, mid, hi)
    decreases hi
  {
    if mid < hi { TempoSumSplit(tempos, lo, mid, hi - 1); }
  }

  /** Between two consecutive entries the earlier one is in effect. */
  lemma {:induction false} EffectiveBetween(tempos: seq<TempoEvent>, i: nat, u: nat)
    requires SortedBy(tempos, TempoLeq) && i <= |tempos|
    requires forall k :: 0 <= k < i ==> tempos[k].tick <= u
    requires i < |tempos| ==> u < tempos[i].tick
    ensures EffectiveTempo(tempos, u) == if i == 0 then DEFAULT_TEMPO else tempos[i - 1].tempo
    decreases |tempos|
  {
    if i < |tempos| {
      assert i < |tempos| - 1 ==> TempoLeq(tempos[i], tempos[|tempos| - 1]);
      EffectiveBetween(tempos[..|tempos| - 1], i, u);
    }
  }

  lemma {:induction false} ConstantStretch(tempos: seq<TempoEvent>, i: nat, lo: nat, hi: nat)
    requires SortedBy(tempos, TempoLeq) && i <= |tempos| && lo <= hi
    requires forall k :: 0 <= k < i ==> tempos[k].tick <= lo
    requires i < |tempos| ==> hi <= tempos[i].tick
    ensures TempoSum(tempos, lo, hi) == (hi - lo) * (if i == 0 then DEFAULT_TEMPO else tempos[i - 1].tempo)
    decreases hi - lo
  {
    hide EffectiveTempo;
    if lo < hi {
      ConstantStretch(tempos, i, lo, hi - 1);
      EffectiveBetween(tempos, i, hi - 1);
      OneMore(hi - 1 - lo, if i == 0 then DEFAULT_TEMPO else tempos[i - 1].tempo);
    }
  }

  /** The script's accumulation is the integral of the effective tempo from tick zero. */
  method TicksToSeconds(tick: nat, tempos: seq<TempoEvent>, ticksPerQuarter: nat) returns (seconds: real)
    requires SortedBy(tempos, TempoLeq) && ticksPerQuarter > 0
    ensures seconds == Seconds(TempoSum(tempos, 0, tick), ticksPerQuarter)
  {
    seconds := 0.0;
    var previousTick: nat, currentTempo := 0, DEFAULT_TEMPO;
    var i := 0;
    while i < |tempos|
      invariant 0 <= i <= |tempos| && previousTick <= tick
      invariant previousTick == if i == 0 then 0 else tempos[i - 1].tick
      invariant currentTempo == if i == 0 then DEFAULT_TEMPO else tempos[i - 1].tempo
      invariant seconds == Seconds(TempoSum(tempos, 0, previousTick), ticksPerQuarter)
    {
      if tempos[i].tick > tick {
        break;
      }
      assert i > 0 ==> TempoLeq(tempos[i - 1], tempos[i]);
      Stretch(tempos, i, previousTick, tempos[i].tick, ticksPerQuarter);
      seconds := seconds
                 + ((tempos[i].tick - previousTick) * currentTempo) as real / ticksPerQuarter as real / 1000000.0;
      previousTick := tempos[i].tick;
      currentTempo := tempos[i].tempo;
      i := i + 1;
    }
    Stretch(tempos, i, previousTick, tick, ticksPerQuarter);
    seconds := seconds + ((tick - previousTick) * currentTempo) as real / ticksPerQuarter as real / 1000000.0;
  }

  lemma Stretch(tempos: seq<TempoEvent>, i: nat, lo: nat, hi: nat, ticksPerQuarter: nat)
    requires SortedBy(tempos, TempoLeq) && i <= |tempos| && lo <= hi && ticksPerQuarter > 0
    requires lo == if i == 0 then 0 else tempos[i - 1].tick
    requires i < |tempos| ==> hi <= tempos[i].tick
    ensures Seconds(TempoSum(tempos, 0, hi), ticksPerQuarter) ==
            Seconds(TempoSum(tempos, 0, lo), ticksPerQuarter)
            + ((hi - lo) * (if i == 0 then DEFAULT_TEMPO else tempos[i - 1].tempo))
                as real / ticksPerQuarter as real / 1000000.0
  {
    forall k | 0 <= k < i ensures tempos[k].tick <= lo {
      assert k < i - 1 ==> TempoLeq(tempos[k], tempos[i - 1]);
    }
    ConstantStretch(tempos, i, lo, hi);
    TempoSumSplit(tempos, 0, lo, hi);
    SecondsAdd(TempoSum(tempos, 0, lo), TempoSum(tempos, lo, hi), ticksPerQuarter);
  }

  /** Time never runs backwards, and adjacent intervals add up. */
  lemma SecondsOfTicks(tempos: seq<TempoEvent>, a: nat, b: nat, ticksPerQuarter: nat)
    requires a <= b && ticksPerQuarter > 0
    ensures Seconds(TempoSum(tempos, 0, a), ticksPerQuarter) + Seconds(TempoSum(tempos, a, b), ticksPerQuarter)
         == Seconds(TempoSum(tempos, 0, b), ticksPerQuarter)
    ensures Seconds(TempoSum(tempos, 0, a), ticksPerQuarter) <= Seconds(TempoSum(tempos, 0, b), ticksPerQuarter)
  {
    TempoSumSplit(tempos, 0, a, b);
    SecondsAdd(TempoSum(tempos, 0, a), TempoSum(tempos, a, b), ticksPerQuarter);
    SecondsMonotone(TempoSum(tempos, 0, a), TempoSum(tempos, 0, b), ticksPerQuarter);
  }

  // ---- which tempo is that?

  /** The list the parser integrates: the seed (0, 500000) and the file's events, deduplicated and sorted. */
  function SortedTempos(fileTempos: seq<TempoEvent>): (r: seq<TempoEvent>)
    ensures SortedBy(r, TempoLeq)
    ensures forall e :: e in r <==> e == TempoEvent(0, 500_000) || e in fileTempos
  {
    var all := [TempoEvent(0, DEFAULT_TEMPO)] + fileTempos;
    SortMembers(Dedup(all), TempoLeq);
    Sort(Dedup(all), TempoLeq)
  }

  /** The effective entry is the greatest (tick, tempo) pair at or before `u`. */
  lemma {:induction false} EffectiveIsGreatest(tempos: seq<TempoEvent>, u: nat) returns (e: TempoEvent)
    requires SortedBy(tempos, TempoLeq) && TempoEvent(0, 500_000) in tempos
    ensures e in tempos && e.tick <= u && EffectiveTempo(tempos, u) == e.tempo
    ensures forall f :: f in tempos && f.tick <= u ==> f.tick < e.tick || (f.tick == e.tick && f.tempo <= e.tempo)
  {
    var n := |tempos| - 1;
    if tempos[n].tick <= u {
      e := tempos[n];
      forall f | f in tempos ensures TempoLeq(f, e) {
        var k :| 0 <= k <= n && tempos[k] == f;
        assert k < n ==> TempoLeq(tempos[k], tempos[n]);
      }
    } else {
      assert tempos == tempos[..n] + [tempos[n]];
      e := EffectiveIsGreatest(tempos[..n], u);
    }
  }

  /** What a tempo meta event means in a file: it holds from its tick until a later
      event, so of several at one tick the last in file order wins. */
  ghost function LatestInFile(fileTempos: seq<TempoEvent>, u: nat): Option<TempoEvent> {
    if fileTempos == [] then None
    else
      var before, x := LatestInFile(fileTempos[..|fileTempos| - 1], u), fileTempos[|fileTempos| - 1];
      if x.tick <= u && (before.None? || before.value.tick <= x.tick) then Some(x) else before
  }

  ghost function FileTempo(fileTempos: seq<TempoEvent>, u: nat): nat {
    match LatestInFile(fileTempos, u)
    case None => 500_000
    case Some(e) => e.tempo
  }

  lemma {:induction false} LatestInFileTick(fileTempos: seq<TempoEvent>, u: nat)
    ensures match LatestInFile(fileTempos, u)
      case None => forall f :: f in fileTempos ==> u < f.tick
      case Some(e) => e in fileTempos && e.tick <= u && forall f :: f in fileTempos && f.tick <= u ==> f.tick <= e.tick
  {
    if fileTempos != [] {
      var n := |fileTempos| - 1;
      assert fileTempos == fileTempos[..n] + [fileTempos[n]];
      LatestInFileTick(fileTempos[..n], u);
    }
  }

  /** No other entry at the same tick, the seed at tick 0 included, is numerically larger. */
  ghost predicate SlowestAtItsTick(e: TempoEvent, fileTempos: seq<TempoEvent>) {
    && (forall f :: f in fileTempos && f.tick == e.tick ==> f.tempo <= e.tempo)
    && (e.tick == 0 ==> 500_000 <= e.tempo)
  }

  /** Because the pairs are sorted, the slowest tempo of a tick wins, not the last one
      written: the file's own tempo is in effect exactly when it is also the slowest there. */
  lemma EffectiveTempoIsFileTempoIff(fileTempos: seq<TempoEvent>, u: nat)
    ensures EffectiveTempo(SortedTempos(fileTempos), u) == FileTempo(fileTempos, u)
       <==> (LatestInFile(fileTempos, u).Some? ==> SlowestAtItsTick(LatestInFile(fileTempos, u).value, fileTempos))
  {
    var tempos := SortedTempos(fileTempos);
    var seed := TempoEvent(0, DEFAULT_TEMPO);
    var e := EffectiveIsGreatest(tempos, u);
    LatestInFileTick(fileTempos, u);
    hide SortedTempos;
    assert TempoLeq(seed, e);
    match LatestInFile(fileTempos, u)
    case None =>
      assert e == seed;
    case Some(l) =>
      assert l in tempos && TempoLeq(l, e);
      assert e.tick == l.tick;
      if SlowestAtItsTick(l, fileTempos) {
        assert e.tempo <= l.tempo;
      }
      if e.tempo == l.tempo {
        forall f | f in fileTempos && f.tick == l.tick ensures f.tempo <= l.tempo {
          assert f in tempos && TempoLeq(f, e);
        }
      }
  }

  /** A file whose one tempo event sets a tempo faster than 120 beats a minute at its start
      is timed at 120 throughout. */
  lemma FasterInitialTempoIgnored(tempo: nat, u: nat)
    requires tempo < 500_000
    ensures FileTempo([TempoEvent(0, tempo)], u) == tempo
    ensures EffectiveTempo(SortedTempos([TempoEvent(0, tempo)]), u) == 500_000
  {
    hide SortedTempos, EffectiveTempo;
    var file := [TempoEvent(0, tempo)];
    var e := EffectiveIsGreatest(SortedTempos(file), u);
    assert TempoEvent(0, DEFAULT_TEMPO) in SortedTempos(file);
    assert TempoLeq(TempoEvent(0, DEFAULT_TEMPO), e);
    assert LatestInFile(file[..0], u) == None;
  }
}
