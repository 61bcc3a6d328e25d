/**
 * The receive loop both drivers share: look at the unread input, either leave the loop or maybe
 * emit a packet and pull a frame off the front. The drivers differ in what one round does.
 */
module PullLoop {
  import opened Bytes

  /**
   * How the loop ends: input used up, a bad frame, the same round for ever, or a copy with a negative
   * length, which one of the drivers attempts.
   */
  datatype Fate = Drained | Aborted | Spinning | Crashed

  /** One round: leave the loop, or emit at most one packet and pull `n` bytes. */
  datatype Step<+P> = Leave(fate: Fate) | Move(n: nat, out: Option<P>)

  datatype Decoded<+P> = Decoded(pkts: seq<P>, fate: Fate)

  /** `skb_pull`: asking for more than there is leaves the buffer as it was. */
  function Pull(s: seq<byte>, n: nat): seq<byte> {
    if n <= |s| then s[n..] else s
  }

  predicate Progress<P>(st: Step<P>, s: seq<byte>) {
    st.Move? && 0 < st.n <= |s|
  }

  function Emitted<P>(st: Step<P>): seq<P> {
    if st.Move? && st.out.Some? then [st.out.value] else []
  }

  function Loop<P>(round: seq<byte> -> Step<P>, s: seq<byte>): Decoded<P>
    decreases |s|
  {
    var st := round(s);
    if st.Leave? then Decoded([], st.fate)
    else if !Progress(st, s) then Decoded([], Spinning)
    else
      var d := Loop(round, s[st.n..]);
      Decoded(Emitted(st) + d.pkts, d.fate)
  }

  /** A round that pulls exactly `a` leaves the loop to go on with `b`. */
  lemma LoopFront<P>(round: seq<byte> -> Step<P>, a: seq<byte>, b: seq<byte>)
    requires round(a + b).Move? && 0 < |a| == round(a + b).n
    ensures Loop(round, a + b)
         == Decoded(Emitted(round(a + b)) + Loop(round, b).pkts, Loop(round, b).fate)
  {
    assert (a + b)[|a|..] == b;
  }

  lemma LoopOnce<P>(round: seq<byte> -> Step<P>, s: seq<byte>)
    requires Progress(round(s), s)
    ensures Loop(round, s).pkts == Emitted(round(s)) + Loop(round, Pull(s, round(s).n)).pkts
  {
  }

  /**
   * The loop itself, queueing packets on a chain. `allocs` is how many packet buffers the kernel
   * can still hand out; the first refusal abandons the rest of the input.
   */
  method Run<P>(round: seq<byte> -> Step<P>, skbIn: seq<byte>, allocs: nat) returns (chain: seq<P>)
    requires !ReachesStuck(round, skbIn)
    ensures var pkts := Loop(round, skbIn).pkts;
      chain == pkts[..Min(allocs, |pkts|)]
  {
    chain := [];
    var skb := skbIn;
    ghost var whole := Loop(round, skbIn).pkts;
    var step := round(skb);
    while step.Move?
      invariant |chain| <= allocs && step == round(skb)
      invariant whole == chain + Loop(round, skb).pkts
      invariant !ReachesStuck(round, skb)
      decreases |skb|
    {
      LoopOnce(round, skb);
      var next := Pull(skb, step.n);
      Assoc(chain, Emitted(step), Loop(round, next).pkts);
      Units(chain);
      if step.out.Some? {
        if |chain| == allocs {
          assert chain == whole[..|chain|];
          return;
        }
        chain := chain + [step.out.value];
      }
      skb := next;
      step := round(skb);
    }
    Units(chain);
  }

  // Termination --------------------------------------------------------------------------------

  /** The input after `n` rounds, or `None` once the loop has left. */
  function After<P>(round: seq<byte> -> Step<P>, s: seq<byte>, n: nat): Option<seq<byte>> {
    var st := round(s);
    if st.Leave? then None
    else if n == 0 then Some(s)
    else After(round, Pull(s, st.n), n - 1)
  }

  /** Some input the loop gets to makes a round that neither leaves nor pulls anything. */
  ghost predicate ReachesStuck<P>(round: seq<byte> -> Step<P>, s: seq<byte>)
    decreases |s|
  {
    var st := round(s);
    st.Move? && (!Progress(st, s) || ReachesStuck(round, s[st.n..]))
  }

  lemma {:induction false} LeavesWhenNotStuck<P>(round: seq<byte> -> Step<P>, s: seq<byte>)
    requires !ReachesStuck(round, s)
    ensures exists n: nat :: After(round, s, n) == None
    decreases |s|
  {
    var st := round(s);
    if st.Leave? {
      assert After(round, s, 0) == None;
    } else {
      LeavesWhenNotStuck(round, s[st.n..]);
      var n: nat :| After(round, s[st.n..], n) == None;
      assert After(round, s, n + 1) == None;
    }
  }

  lemma {:induction false} NeverLeavesWhenStuck<P>(round: seq<byte> -> Step<P>, s: seq<byte>, n: nat)
    requires ReachesStuck(round, s)
    ensures After(round, s, n).Some?
    decreases n
  {
    if n == 0 {
    } else {
      NeverLeavesWhenStuck(round, Pull(s, round(s).n), n - 1);
    }
  }

  lemma {:induction false} SpinningIff<P>(round: seq<byte> -> Step<P>, s: seq<byte>)
    requires forall x :: round(x) != Leave(Spinning)
    ensures Loop(round, s).fate.Spinning? <==> ReachesStuck(round, s)
    decreases |s|
  {
    if Progress(round(s), s) {
      SpinningIff(round, s[round(s).n..]);
    }
  }

  /** The loop ends on an input exactly when it never gets to a stuck round. */
  lemma TerminatesIff<P>(round: seq<byte> -> Step<P>, s: seq<byte>)
    ensures (exists n: nat :: After(round, s, n) == None) <==> !ReachesStuck(round, s)
  {
    if ReachesStuck(round, s) {
      forall n: nat ensures After(round, s, n).Some? {
        NeverLeavesWhenStuck(round, s, n);
      }
    } else {
      LeavesWhenNotStuck(round, s);
    }
  }

  // Where packets come from --------------------------------------------------------------------

  /** Where the frame of each emitted packet starts in `w`, reading from `base` on. */
  ghost function Starts<P>(round: seq<byte> -> Step<P>, w: seq<byte>, base: nat): seq<nat>
    requires base <= |w|
    decreases |w| - base
  {
    var st := round(w[base..]);
    if !Progress(st, w[base..]) then []
    else (if st.out.Some? then [base] else []) + Starts(round, w, base + st.n)
  }

  /** Packet `p` is what the round at `at` emits, and that round pulls bytes of `w` only. */
  ghost predicate EmittedAt<P>(round: seq<byte> -> Step<P>, w: seq<byte>, at: nat, p: P) {
    && at <= |w|
    && Progress(round(w[at..]), w[at..])
    && round(w[at..]).out == Some(p)
  }

  /** The packets come one each from rounds at `at`, which are in order and do not overlap. */
  ghost predicate Lined<P>(round: seq<byte> -> Step<P>, w: seq<byte>, base: nat, at: seq<nat>, ps: seq<P>) {
    && |at| == |ps|
    && (forall i :: 0 <= i < |at| ==> base <= at[i] && EmittedAt(round, w, at[i], ps[i]))
    && (forall i, j :: 0 <= i < j < |at| ==> at[i] <= |w| && round(w[at[i]..]).Move? &&
                                             at[i] + round(w[at[i]..]).n <= at[j])
  }

  lemma {:induction false} LoopIsLined<P>(round: seq<byte> -> Step<P>, w: seq<byte>, base: nat)
    requires base <= |w|
    ensures Lined(round, w, base, Starts(round, w, base), Loop(round, w[base..]).pkts)
    decreases |w| - base
  {
    var s := w[base..];
    var st := round(s);
    if !Progress(st, s) {
    } else {
      var next := base + st.n;
      assert s[st.n..] == w[next..];
      LoopIsLined(round, w, next);
      var at, ps := Starts(round, w, next), Loop(round, w[next..]).pkts;
      if st.out.Some? {
        LinedCons(round, w, base, next, st.out.value, at, ps);
      } else {
        Units(at);
        Units(ps);
        LinedFurther(round, w, base, next, at, ps);
      }
    }
  }

  lemma LinedFurther<P>(round: seq<byte> -> Step<P>, w: seq<byte>, base: nat, next: nat,
                        at: seq<nat>, ps: seq<P>)
    requires Lined(round, w, next, at, ps) && base <= next
    ensures Lined(round, w, base, at, ps)
  {
  }

  lemma LinedCons<P>(round: seq<byte> -> Step<P>, w: seq<byte>, base: nat, next: nat, p: P,
                     at: seq<nat>, ps: seq<P>)
    requires Lined(round, w, next, at, ps)
    requires EmittedAt(round, w, base, p) && base + round(w[base..]).n == next
    ensures Lined(round, w, base, [base] + at, [p] + ps)
  {
    var at', ps' := [base] + at, [p] + ps;
    forall i | 0 <= i < |at'| ensures base <= at'[i] && EmittedAt(round, w, at'[i], ps'[i]) {
      if i > 0 {
        assert at'[i] == at[i - 1] && ps'[i] == ps[i - 1];
      }
    }
    forall i, j | 0 <= i < j < |at'|
      ensures at'[i] <= |w| && round(w[at'[i]..]).Move? && at'[i] + round(w[at'[i]..]).n <= at'[j]
    {
      assert at'[j] == at[j - 1];
      if i > 0 {
        assert at'[i] == at[i - 1];
      }
    }
  }

  // Compositionality ---------------------------------------------------------------------------

  /** The loop takes `a` apart completely, and would do the same whatever followed `a`. */
  ghost predicate Whole<P(!new)>(round: seq<byte> -> Step<P>, a: seq<byte>)
    decreases |a|
  {
    a == [] ||
    (&& Progress(round(a), a)
     && (forall b :: round(a + b) == round(a))
     && Whole(round, a[round(a).n..]))
  }

  lemma {:induction false} LoopConcat<P(!new)>(round: seq<byte> -> Step<P>, a: seq<byte>, b: seq<byte>)
    requires Whole(round, a)
    ensures Loop(round, a + b).pkts == Loop(round, a).pkts + Loop(round, b).pkts
    ensures Loop(round, a + b).fate == Loop(round, b).fate
    ensures Loop(round, a).fate == Loop(round, []).fate
    decreases |a|
  {
    if a == [] {
      Units(b);
      Units(Loop(round, b).pkts);
    } else {
      var n := round(a).n;
      LoopConcat(round, a[n..], b);
      assert round(a + b) == round(a);
      assert (a + b)[n..] == a[n..] + b;
      Assoc(Emitted(round(a)), Loop(round, a[n..]).pkts, Loop(round, b).pkts);
    }
  }
}
