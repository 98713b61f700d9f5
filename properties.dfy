/** What the store promises over sequences of requests served one at a time. */
module StoreProperties {
  import opened I64
  import opened Store

  /** After any sequence of requests each counter is its starting value plus
      the number of taps on it, wrapped at the i64 boundary. */
  lemma {:induction false} RunCounts(s: StateDto, ops: seq<Op>)
    ensures Run(s, ops) == StateDto(Wrap(s.good as int + Count(ops, Good)),
                                    Wrap(s.evil as int + Count(ops, Evil)))
    decreases |ops|
  {
    if ops == [] {
      WrapUnique(s.good as int, s.good);
      WrapUnique(s.evil as int, s.evil);
    } else {
      var t := Apply(s, ops[0]);
      RunCounts(t, ops[1..]);
      var g, e := Count(ops[1..], Good), Count(ops[1..], Evil);
      match ops[0]
      case State =>
      case Good => WrapAdd(s.good as int + 1, g);
      case Evil => WrapAdd(s.evil as int + 1, e);
    }
  }

  /** Count is the multiplicity of op in the multiset of requests. */
  lemma {:induction false} CountIsMultiplicity(ops: seq<Op>, op: Op)
    ensures Count(ops, op) == multiset(ops)[op]
    decreases |ops|
  {
    if ops != [] {
      CountIsMultiplicity(ops[1..], op);
      assert ops == [ops[0]] + ops[1..];
    }
  }

  /** Increments commute: the final counters do not depend on the order in
      which the requests were served. */
  lemma OrderIrrelevant(s: StateDto, ops1: seq<Op>, ops2: seq<Op>)
    requires multiset(ops1) == multiset(ops2)
    ensures Run(s, ops1) == Run(s, ops2)
  {
    RunCounts(s, ops1);
    RunCounts(s, ops2);
    CountIsMultiplicity(ops1, Good);
    CountIsMultiplicity(ops2, Good);
    CountIsMultiplicity(ops1, Evil);
    CountIsMultiplicity(ops2, Evil);
  }

  /** tap_good then tap_evil leaves the store as tap_evil then tap_good. */
  lemma TapsCommute(s: StateDto)
    ensures Apply(Apply(s, Good), Evil) == Apply(Apply(s, Evil), Good)
    ensures Run(s, [Good, Evil]) == Run(s, [Evil, Good])
  {
    OrderIrrelevant(s, [Good, Evil], [Evil, Good]);
  }

  /** n tap_good requests add n to `good` (wrapping) and leave `evil` alone. */
  lemma RepeatedTapGood(s: StateDto, n: nat)
    ensures Run(s, seq(n, _ => Good)) == StateDto(Wrap(s.good as int + n), s.evil)
    ensures s.good as int + n <= Max ==> Run(s, seq(n, _ => Good)).good as int == s.good as int + n
  {
    var ops := seq(n, _ => Good);
    RunCounts(s, ops);
    CountRepeat(n, Good, Good);
    CountRepeat(n, Good, Evil);
    WrapUnique(s.evil as int, s.evil);
  }

  /** n tap_evil requests add n to `evil` (wrapping) and leave `good` alone. */
  lemma RepeatedTapEvil(s: StateDto, n: nat)
    ensures Run(s, seq(n, _ => Evil)) == StateDto(s.good, Wrap(s.evil as int + n))
    ensures s.evil as int + n <= Max ==> Run(s, seq(n, _ => Evil)).evil as int == s.evil as int + n
  {
    var ops := seq(n, _ => Evil);
    RunCounts(s, ops);
    CountRepeat(n, Evil, Evil);
    CountRepeat(n, Evil, Good);
    WrapUnique(s.good as int, s.good);
  }

  /** n copies of op contain op n times and nothing else. */
  lemma {:induction false} CountRepeat(n: nat, op: Op, other: Op)
    ensures Count(seq(n, _ => op), other) == if other == op then n else 0
  {
    if n > 0 {
      CountRepeat(n - 1, op, other);
      assert seq(n, _ => op)[1..] == seq(n - 1, _ => op);
    }
  }

  /** Count distributes over concatenation. */
  lemma {:induction false} CountAppend(a: seq<Op>, b: seq<Op>, op: Op)
    ensures Count(a + b, op) == Count(a, op) + Count(b, op)
    decreases |a|
  {
    if a == [] {
      assert a + b == b;
    } else {
      CountAppend(a[1..], b, op);
      assert (a + b)[1..] == a[1..] + b;
    }
  }

  /** The i-th reply is the request applied to the store as the earlier
      requests left it, and equals the store after the first i+1 requests:
      a tap's reply shows its own increment, never the stale value. */
  lemma {:induction false} ReplyAt(s: StateDto, ops: seq<Op>, i: nat)
    requires i < |ops|
    ensures |Replies(s, ops)| == |ops|
    ensures Replies(s, ops)[i] == Apply(Run(s, ops[..i]), ops[i])
    ensures Replies(s, ops)[i] == Run(s, ops[..i + 1])
    decreases |ops|
  {
    var t := Apply(s, ops[0]);
    if i == 0 {
      assert ops[..0] == [];
      assert ops[..1][1..] == [];
      RepliesLength(t, ops[1..]);
    } else {
      ReplyAt(t, ops[1..], i - 1);
      assert ops[..i][1..] == ops[1..][..i - 1];
      assert ops[..i + 1][1..] == ops[1..][..i];
    }
  }

  lemma {:induction false} RepliesLength(s: StateDto, ops: seq<Op>)
    ensures |Replies(s, ops)| == |ops|
    decreases |ops|
  {
    if ops != [] {
      RepliesLength(Apply(s, ops[0]), ops[1..]);
    }
  }

  /** `get_state` is a pure read: any run of reads leaves the store as it
      was and every one of them answers with the same snapshot. */
  lemma {:induction false} ReadsAreIdempotent(s: StateDto, ops: seq<Op>)
    requires forall k :: 0 <= k < |ops| ==> ops[k] == State
    ensures Run(s, ops) == s
    ensures |Replies(s, ops)| == |ops|
    ensures forall k :: 0 <= k < |ops| ==> Replies(s, ops)[k] == s
    decreases |ops|
  {
    if ops != [] {
      ReadsAreIdempotent(s, ops[1..]);
    }
  }

  /** Below the overflow bound, each counter after a run is exactly its
      start value plus the number of taps on it. */
  lemma RunWithoutOverflow(s: StateDto, ops: seq<Op>)
    requires s.good as int + Count(ops, Good) <= Max
    requires s.evil as int + Count(ops, Evil) <= Max
    ensures Run(s, ops).good as int == s.good as int + Count(ops, Good)
    ensures Run(s, ops).evil as int == s.evil as int + Count(ops, Evil)
  {
    RunCounts(s, ops);
  }

  /** With no overflow, neither counter ever goes down: the replies to a
      sequence of requests are non-decreasing in both fields. */
  lemma RepliesMonotone(s: StateDto, ops: seq<Op>, i: nat, j: nat)
    requires i <= j < |ops|
    requires s.good as int + Count(ops, Good) <= Max
    requires s.evil as int + Count(ops, Evil) <= Max
    ensures |Replies(s, ops)| == |ops|
    ensures s.good <= Replies(s, ops)[i].good <= Replies(s, ops)[j].good
    ensures s.evil <= Replies(s, ops)[i].evil <= Replies(s, ops)[j].evil
  {
    ReplyAt(s, ops, i);
    ReplyAt(s, ops, j);
    var a, b := ops[..i + 1], ops[..j + 1];
    assert b == a + ops[i + 1..j + 1];
    assert ops == b + ops[j + 1..];
    CountAppend(a, ops[i + 1..j + 1], Good);
    CountAppend(a, ops[i + 1..j + 1], Evil);
    CountAppend(b, ops[j + 1..], Good);
    CountAppend(b, ops[j + 1..], Evil);
    RunWithoutOverflow(s, a);
    RunWithoutOverflow(s, b);
  }

  /** From a fresh store, with fewer than 2^63 taps on each side, each
      counter equals the number of taps on it and so is never negative. */
  lemma FreshCountsTaps(ops: seq<Op>)
    requires Count(ops, Good) <= Max && Count(ops, Evil) <= Max
    ensures Run(Initial, ops).good as int == Count(ops, Good) >= 0
    ensures Run(Initial, ops).evil as int == Count(ops, Evil) >= 0
  {
    RunWithoutOverflow(Initial, ops);
  }

  /** Without that bound the invariant fails: `fetch_add` wraps, so one
      more tap on a counter at i64::MAX makes it i64::MIN. */
  lemma TapAtMaxWraps(e: i64)
    ensures Apply(StateDto(Max as i64, e), Good) == StateDto(Min as i64, e)
    ensures Apply(StateDto(e, Max as i64), Evil) == StateDto(e, Min as i64)
  {
    WrapUnique(Max + 1, Min as i64);
  }

  /** tap/good, tap/good, tap/evil, state from a fresh store. */
  lemma FreshScenarioReplies()
    ensures Replies(Initial, [Good, Good, Evil, State])
         == [StateDto(1, 0), StateDto(2, 0), StateDto(2, 1), StateDto(2, 1)]
  {
  }

  /** One hundred tap/good requests on a fresh store, whatever their order
      among callers, give {good: 100, evil: 0}. */
  lemma HundredTaps(ops: seq<Op>)
    requires multiset(ops) == multiset{}[Good := 100]
    ensures Run(Initial, ops) == StateDto(100, 0)
  {
    var taps := seq(100, _ => Good);
    forall o: Op ensures multiset(taps)[o] == multiset(ops)[o] {
      CountRepeat(100, Good, o);
      CountIsMultiplicity(taps, o);
    }
    assert multiset(taps) == multiset(ops);
    OrderIrrelevant(Initial, ops, taps);
    RepeatedTapGood(Initial, 100);
  }
}
