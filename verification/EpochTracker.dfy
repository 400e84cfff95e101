/** The chat client's own watch on the rate limit of one message per epoch: it remembers the epoch of the
    last proof it attached and warns when the next one has the same (apps/chat2/chat2.nim, publish). */
module EpochTracker {
  import opened Wrappers
  import opened Protobuf

  //// Epochs as 32 bytes, the number in the first eight, least significant first

  type Epoch = e: Bytes | |e| == 32 witness seq(32, i => 0)

  function LittleEndian(t: nat, n: nat): (b: Bytes)
    ensures |b| == n
  {
    if n == 0 then [] else [t % 256] + LittleEndian(t / 256, n - 1)
  }

  function FromLittleEndian(b: Bytes): nat {
    if |b| == 0 then 0 else b[0] + 256 * FromLittleEndian(b[1..])
  }

  function ToEpoch(t: nat): Epoch { LittleEndian(t, 8) + seq(24, i => 0) }

  function FromEpoch(e: Epoch): nat { FromLittleEndian(e[..8]) }

  // calcEpoch, on whole seconds.
  function CalcEpoch(epochSize: nat, time: nat): Epoch
    requires epochSize > 0
  {
    ToEpoch(time / epochSize)
  }

  function Pow256(n: nat): nat {
    if n == 0 then 1 else 256 * Pow256(n - 1)
  }

  lemma {:induction false} LittleEndianRoundTrip(t: nat, n: nat)
    requires t < Pow256(n)
    ensures FromLittleEndian(LittleEndian(t, n)) == t
  {
    if n > 0 {
      assert t / 256 < Pow256(n - 1);
      LittleEndianRoundTrip(t / 256, n - 1);
      assert LittleEndian(t, n)[1..] == LittleEndian(t / 256, n - 1);
    }
  }

  lemma EpochRoundTrip(t: nat)
    requires t < TWO_64
    ensures FromEpoch(ToEpoch(t)) == t
  {
    assert Pow256(4) == 0x1_0000_0000 by { assert Pow256(2) == 0x1_0000; }
    assert Pow256(6) == 0x1_0000_0000_0000;
    LittleEndianRoundTrip(t, 8);
    assert ToEpoch(t)[..8] == LittleEndian(t, 8);
  }

  // The number of an epoch, its lowest byte first; the other 24 bytes of a made epoch are zero.
  lemma EpochBytes(e: Epoch, t: nat)
    ensures var byte := (i: nat) requires i < 32 => e[i] as int;
            FromEpoch(e) == byte(0) + 0x100 * byte(1) + 0x1_0000 * byte(2) + 0x100_0000 * byte(3)
                            + 0x1_0000_0000 * byte(4) + 0x100_0000_0000 * byte(5) + 0x1_0000_0000_0000 * byte(6)
                            + 0x100_0000_0000_0000 * byte(7)
    ensures forall i :: 8 <= i < 32 ==> ToEpoch(t)[i] == 0
  {
    var b := e[..8];
    assert forall i :: 0 <= i < 8 ==> b[i..][1..] == b[i + 1..] && b[i..][0] == b[i];
    assert FromLittleEndian(b[8..]) == 0 && FromLittleEndian(b[7..]) == b[7];
    assert FromLittleEndian(b[6..]) == b[6] + 256 * FromLittleEndian(b[7..]);
    assert FromLittleEndian(b[5..]) == b[5] + 256 * FromLittleEndian(b[6..]);
    assert FromLittleEndian(b[4..]) == b[4] + 256 * FromLittleEndian(b[5..]);
    assert FromLittleEndian(b[3..]) == b[3] + 256 * FromLittleEndian(b[4..]);
    assert FromLittleEndian(b[2..]) == b[2] + 256 * FromLittleEndian(b[3..]);
    assert FromLittleEndian(b[1..]) == b[1] + 256 * FromLittleEndian(b[2..]);
    assert b[0..] == b;
  }

  lemma MulMonotone(d: nat, x: int, y: int)
    ensures x <= y ==> d * x <= d * y
  {}

  lemma DivBounds(t: nat, d: nat)
    requires d > 0
    ensures 0 <= t / d <= t
  {
    var q := t / d;
    assert t == d * q + t % d;
    MulMonotone(d, q, -1);
    MulMonotone(q, 1, d);
  }

  // The epoch of a second is the number of whole periods before it.
  lemma EpochOfTime(epochSize: nat, time: nat, k: nat)
    requires epochSize > 0 && time < TWO_64
    ensures FromEpoch(CalcEpoch(epochSize, time)) == k <==> epochSize * k <= time < epochSize * (k + 1)
  {
    DivBounds(time, epochSize);
    EpochRoundTrip(time / epochSize);
    WholePeriods(epochSize, time, k);
    hide ToEpoch, FromEpoch;
  }

  lemma WholePeriods(d: nat, t: nat, k: nat)
    requires d > 0
    ensures t / d == k <==> d * k <= t < d * (k + 1)
  {
    var q := t / d;
    assert t == d * q + t % d;
    assert d * (q + 1) == d * q + d;
    if k < q { MulMonotone(d, k + 1, q); } else if k > q { MulMonotone(d, q + 1, k); }
  }

  //// A run of publishes: the epoch of the attached proof, or nothing when none could be attached

  datatype Tracker = Tracker(lastEpoch: Epoch, warnings: nat)

  function Track(s: Tracker, attached: Option<Epoch>): Tracker {
    match attached
    case None => s
    case Some(e) => Tracker(e, if FromEpoch(s.lastEpoch) == FromEpoch(e) then s.warnings + 1 else s.warnings)
  }

  function TrackAll(s: Tracker, run: seq<Option<Epoch>>): Tracker {
    if |run| == 0 then s else Track(TrackAll(s, run[..|run| - 1]), run[|run| - 1])
  }

  function Attached(run: seq<Option<Epoch>>): seq<nat> {
    if |run| == 0 then []
    else
      match run[|run| - 1]
      case None => Attached(run[..|run| - 1])
      case Some(e) => Attached(run[..|run| - 1]) + [FromEpoch(e)]
  }

  // The publish that the tracker compares with: the latest one before i that carried a proof.
  predicate Latest(run: seq<Option<Epoch>>, i: nat, j: nat)
    requires i <= |run|
  {
    j < i && run[j].Some? && forall k :: j < k < i ==> run[k].None?
  }

  predicate WarnedAt(s: Tracker, run: seq<Option<Epoch>>, i: nat)
    requires i < |run|
  {
    TrackAll(s, run[..i + 1]).warnings > TrackAll(s, run[..i]).warnings
  }

  lemma {:induction false} TrackerRemembersLatest(s: Tracker, run: seq<Option<Epoch>>, j: nat)
    ensures Latest(run, |run|, j) ==> TrackAll(s, run).lastEpoch == run[j].value
    ensures (forall k :: 0 <= k < |run| ==> run[k].None?) ==> TrackAll(s, run).lastEpoch == s.lastEpoch
    decreases |run|
  {
    if |run| > 0 {
      var init := run[..|run| - 1];
      TrackerRemembersLatest(s, init, j);
      assert forall k :: 0 <= k < |init| ==> init[k] == run[k];
    }
  }

  // A publish is warned about exactly when the latest proof-carrying publish before it has the same
  // epoch, or there is none and its epoch is the initial one.
  lemma WarnedExactly(s: Tracker, run: seq<Option<Epoch>>, i: nat)
    requires i < |run|
    ensures WarnedAt(s, run, i) <==>
            run[i].Some? && ((exists j: nat :: Latest(run, i, j) && FromEpoch(run[j].value) == FromEpoch(run[i].value))
                             || ((forall k :: 0 <= k < i ==> run[k].None?)
                                 && FromEpoch(s.lastEpoch) == FromEpoch(run[i].value)))
  {
    hide FromEpoch;
    assert run[..i + 1][..i] == run[..i];
    forall j: nat ensures Latest(run, i, j) <==> Latest(run[..i], i, j) {
      assert forall k :: 0 <= k < i ==> run[..i][k] == run[k];
    }
    if forall k :: 0 <= k < i ==> run[k].None? {
      TrackerRemembersLatest(s, run[..i], 0);
    } else {
      var j := LatestExists(run, i);
      TrackerRemembersLatest(s, run[..i], j);
    }
  }

  lemma {:induction false} LatestExists(run: seq<Option<Epoch>>, i: nat) returns (j: nat)
    requires i <= |run| && exists k :: 0 <= k < i && run[k].Some?
    ensures Latest(run, i, j)
  {
    if run[i - 1].Some? { j := i - 1; } else { j := LatestExists(run, i - 1); }
  }

  //// Counting

  function Warnings(last: nat, xs: seq<nat>): nat {
    if |xs| == 0 then 0
    else
      var k := |xs| - 1;
      Warnings(last, xs[..k]) + (if xs[k] == (if k == 0 then last else xs[k - 1]) then 1 else 0)
  }

  lemma {:induction false} TrackAllCounts(s: Tracker, run: seq<Option<Epoch>>)
    ensures var xs, s' := Attached(run), TrackAll(s, run);
            && s'.warnings == s.warnings + Warnings(FromEpoch(s.lastEpoch), xs)
            && FromEpoch(s'.lastEpoch) == if xs == [] then FromEpoch(s.lastEpoch) else xs[|xs| - 1]
  {
    hide FromEpoch, Warnings;
    if |run| == 0 {
      assert Warnings(FromEpoch(s.lastEpoch), []) == 0 by { NoWarnings(FromEpoch(s.lastEpoch)); }
    } else {
      var n := |run| - 1;
      TrackAllCounts(s, run[..n]);
      match run[n]
      case None =>
      case Some(e) => WarningsOfOneMore(FromEpoch(s.lastEpoch), Attached(run[..n]), FromEpoch(e));
    }
  }

  lemma NoWarnings(last: nat)
    ensures Warnings(last, []) == 0
  {}

  lemma WarningsOfOneMore(last: nat, xs: seq<nat>, x: nat)
    ensures Warnings(last, xs + [x])
            == Warnings(last, xs) + (if x == (if xs == [] then last else xs[|xs| - 1]) then 1 else 0)
  {
    assert (xs + [x])[..|xs|] == xs;
  }

  // Publishes in an epoch that was used before, but not by the publish just before.
  function Returns(xs: seq<nat>): nat {
    if |xs| <= 1 then 0
    else
      var k := |xs| - 1;
      Returns(xs[..k]) + (if xs[k] != xs[k - 1] && xs[k] in xs[..k] then 1 else 0)
  }

  function Distinct(xs: seq<nat>): set<nat> { set x | x in xs }

  // The warnings of any run: the publishes beyond the first of each epoch, without those that come
  // back to an epoch, and with a false one if the first publish falls into the initial epoch.
  lemma {:induction false} WarningCount(last: nat, xs: seq<nat>)
    ensures Warnings(last, xs) + Returns(xs) + |Distinct(xs)| == |xs| + (if xs != [] && xs[0] == last then 1 else 0)
  {
    if |xs| > 0 {
      var k := |xs| - 1;
      WarningCount(last, xs[..k]);
      DistinctOneMore(xs[..k], xs[k]);
      assert xs == xs[..k] + [xs[k]];
      assert k > 0 ==> xs[..k][k - 1] == xs[k - 1] && xs[..k][0] == xs[0];
    } else {
      assert Distinct(xs) == {};
    }
    hide Distinct;
  }

  lemma DistinctOneMore(xs: seq<nat>, x: nat)
    ensures |Distinct(xs + [x])| == |Distinct(xs)| + (if x in xs then 0 else 1)
  {
    assert Distinct(xs + [x]) == Distinct(xs) + {x};
  }

  // No epoch is left and used again.
  predicate Contiguous(xs: seq<nat>) {
    forall i, j, k :: 0 <= i < j < k < |xs| && xs[i] == xs[k] ==> xs[j] == xs[k]
  }

  lemma {:induction false} NoReturnsIffContiguous(xs: seq<nat>)
    ensures Returns(xs) == 0 <==> Contiguous(xs)
  {
    if |xs| > 1 {
      var n := |xs| - 1;
      var init := xs[..n];
      NoReturnsIffContiguous(init);
      assert forall i :: 0 <= i < n ==> init[i] == xs[i];
      if xs[n] != xs[n - 1] && xs[n] in init {
        var i :| 0 <= i < n && init[i] == xs[n];
        assert xs[i] == xs[n] && xs[n - 1] != xs[n];
      } else if Contiguous(init) {
        forall i, j, k | 0 <= i < j < k < |xs| && xs[i] == xs[k] ensures xs[j] == xs[k] {
          if k < n {
            assert init[i] == init[k];
          } else if j < n - 1 {
            assert xs[n] in init;
            assert init[i] == init[n - 1];
          }
        }
      }
    }
  }

  // The number of warnings is the number of violations of one message per epoch exactly when the false
  // warning about a first publish in the initial epoch, if there is one, makes up for the returns.
  lemma CountIsExact(last: nat, xs: seq<nat>)
    ensures Warnings(last, xs) == |xs| - |Distinct(xs)|
            <==> Returns(xs) == if xs != [] && xs[0] == last then 1 else 0
    ensures Returns(xs) == 0 <==> Contiguous(xs)
  {
    WarningCount(last, xs);
    NoReturnsIffContiguous(xs);
    hide Warnings, Returns, Distinct, Contiguous;
  }

  predicate WarnedFor(last: nat, xs: seq<nat>, i: nat)
    requires i < |xs|
  {
    xs[i] == if i == 0 then last else xs[i - 1]
  }

  lemma {:induction false} WarningsAreCounted(last: nat, xs: seq<nat>)
    ensures Warnings(last, xs) == |set i | 0 <= i < |xs| && WarnedFor(last, xs, i)|
  {
    var warned := set i | 0 <= i < |xs| && WarnedFor(last, xs, i);
    if |xs| == 0 {
      assert warned == {};
    } else {
      var k := |xs| - 1;
      WarningsAreCounted(last, xs[..k]);
      var before := set i | 0 <= i < |xs[..k]| && WarnedFor(last, xs[..k], i);
      assert warned == before + (if WarnedFor(last, xs, k) then {k} else {});
    }
  }

  predicate RightAt(last: nat, xs: seq<nat>, i: nat)
    requires i < |xs|
  {
    WarnedFor(last, xs, i) <==> xs[i] in xs[..i]
  }

  // Each single warning is right, and none is missing, exactly in the runs that leave no epoch to use it
  // again and do not begin in the initial epoch.
  lemma EveryWarningIsRight(last: nat, xs: seq<nat>)
    ensures (forall i :: 0 <= i < |xs| ==> RightAt(last, xs, i))
            <==> Contiguous(xs) && (xs != [] ==> xs[0] != last)
  {
    if Contiguous(xs) && (xs != [] ==> xs[0] != last) {
      forall i | 0 <= i < |xs| ensures RightAt(last, xs, i) {
        if xs[i] in xs[..i] {
          var j :| 0 <= j < i && xs[j] == xs[i];
          assert j == i - 1 || xs[i - 1] == xs[i];
        }
        assert i > 0 ==> xs[i - 1] in xs[..i];
      }
    } else if forall i :: 0 <= i < |xs| ==> RightAt(last, xs, i) {
      assert xs != [] ==> RightAt(last, xs, 0);
      forall i, j, k | 0 <= i < j < k < |xs| && xs[i] == xs[k] ensures xs[j] == xs[k] {
        StepsBack(last, xs, i, j, k);
      }
      assert false;
    }
  }

  // Where every repeated epoch is warned about, the epochs between two equal ones are the same.
  lemma {:induction false} StepsBack(last: nat, xs: seq<nat>, i: nat, j: nat, k: nat)
    requires i < j < k < |xs| && xs[i] == xs[k]
    requires forall m :: 0 <= m < |xs| ==> RightAt(last, xs, m)
    ensures xs[j] == xs[k]
    decreases k
  {
    assert WarnedFor(last, xs, k) by {
      assert RightAt(last, xs, k);
      assert xs[..k][i] == xs[k];
    }
    hide RightAt;
    if j < k - 1 {
      StepsBack(last, xs, i, j, k - 1);
    }
  }

  // A clock that is set back by one epoch: the second message of epoch 1 goes unnoticed.
  lemma ReturnExample()
    ensures var xs := [1, 2, 1];
            Warnings(0, xs) == 0 && |xs| - |Distinct(xs)| == 1 && !RightAt(0, xs, 2)
  {
    var xs := [1, 2, 1];
    assert Distinct(xs) == {1, 2} by {
      assert xs[0] in xs && xs[1] in xs;
    }
    assert xs[..2] == [1, 2] && xs[..2][..1] == [1] && xs[..2][..1][..0] == [];
    assert Warnings(0, xs) == Warnings(0, [1, 2]);
    assert xs[..2][0] == 1;
  }

  predicate NonDecreasing(xs: seq<nat>) {
    forall i, j :: 0 <= i < j < |xs| ==> xs[i] <= xs[j]
  }

  lemma NonDecreasingIsContiguous(xs: seq<nat>)
    requires NonDecreasing(xs)
    ensures Contiguous(xs)
  {}

  // Publishes by a clock that never runs backwards, with failed proofs in between: one warning for each
  // message beyond the first of its epoch, and a false one if the first is in epoch 0.
  lemma ClockedRun(epochSize: nat, times: seq<Option<nat>>, run: seq<Option<Epoch>>)
    requires epochSize > 0 && |run| == |times|
    requires forall i :: 0 <= i < |run| ==>
               run[i] == match times[i] case None => None case Some(t) => Some(CalcEpoch(epochSize, t))
    requires forall i :: 0 <= i < |run| && times[i].Some? ==> times[i].value < TWO_64
    requires forall i, j :: 0 <= i < j < |run| && times[i].Some? && times[j].Some? ==> times[i].value <= times[j].value
    ensures var xs := Attached(run);
            TrackAll(Tracker(ToEpoch(0), 0), run).warnings
            == |xs| - |Distinct(xs)| + (if xs != [] && xs[0] == 0 then 1 else 0)
  {
    var xs := Attached(run);
    AttachedTimes(epochSize, times, run);
    EpochRoundTrip(0);
    TrackAllCounts(Tracker(ToEpoch(0), 0), run);
    NonDecreasingIsContiguous(xs);
    WarningCount(0, xs);
    NoReturnsIffContiguous(xs);
    hide ToEpoch, FromEpoch, Contiguous, Returns, Distinct, Warnings;
  }

  lemma {:induction false} AttachedTimes(epochSize: nat, times: seq<Option<nat>>, run: seq<Option<Epoch>>)
    requires epochSize > 0 && |run| == |times|
    requires forall i :: 0 <= i < |run| ==>
               run[i] == match times[i] case None => None case Some(t) => Some(CalcEpoch(epochSize, t))
    requires forall i :: 0 <= i < |run| && times[i].Some? ==> times[i].value < TWO_64
    requires forall i, j :: 0 <= i < j < |run| && times[i].Some? && times[j].Some? ==> times[i].value <= times[j].value
    ensures var xs := Attached(run);
            && NonDecreasing(xs)
            && (xs != [] ==> exists i :: 0 <= i < |run| && times[i].Some? && xs[|xs| - 1] == times[i].value / epochSize)
    decreases |run|
  {
    hide ToEpoch, FromEpoch;
    if |run| > 0 {
      var n := |run| - 1;
      AttachedTimes(epochSize, times[..n], run[..n]);
      if times[n].Some? {
        var t := times[n].value;
        assert 0 <= t / epochSize < TWO_64 by { DivBounds(t, epochSize); }
        EpochRoundTrip(t / epochSize);
        var init := Attached(run[..n]);
        if init != [] {
          var i :| 0 <= i < n && times[..n][i].Some? && init[|init| - 1] == times[..n][i].value / epochSize;
          assert times[i].value <= t;
          DivMonotone(times[i].value, t, epochSize);
        }
      }
    }
  }

  lemma DivMonotone(a: nat, b: nat, d: nat)
    requires 0 < d && a <= b
    ensures a / d <= b / d
  {
    var p, q := a / d, b / d;
    assert a == d * p + a % d && b == d * q + b % d;
    MulMonotone(d, q + 1, p);
    assert d * (q + 1) == d * q + d;
  }
}
