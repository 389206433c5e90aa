/** The bounded reachability worklist (src/harness_reasoning.hpp, recovery_control_flow). The
    instruction decoder is a parameter: any partial map from offsets to control flow. */
module ControlFlow {
  import opened Common

  datatype Flow =
    | Normal(fallthrough: nat)
    | ConditionalJump(target: nat, fallthrough: nat)
    | DirectJump(target: nat)
    | Call(fallthrough: nat)
    | Other

  const LIMIT := 4096

  /** A blob of `size` bytes and its decoder. */
  datatype Program = Program(size: nat, decode: nat -> Option<Flow>) {

    predicate Decodes(at: nat) { at < size && decode(at).Some? }

    /** The addresses queued after the instruction at `at`, in order; none past `stop`. */
    function Successors(at: nat, stop: nat): seq<nat>
      requires Decodes(at)
    {
      if at == stop then [] else
        match decode(at).value
        case Normal(f) => [f]
        case ConditionalJump(t, f) => [t, f]
        case DirectJump(t) => [t]
        case Call(f) => [f]
        case Other => []
    }

    /** `p` follows decoded instructions from `entry`. */
    ghost predicate Path(entry: nat, stop: nat, p: seq<nat>)
    {
      && p != [] && p[0] == entry
      && (forall i :: 0 <= i < |p| ==> Decodes(p[i]))
      && (forall i :: 0 < i < |p| ==> p[i] in Successors(p[i - 1], stop))
    }

    ghost predicate Reachable(entry: nat, stop: nat, at: nat)
    {
      exists p: seq<nat> :: Path(entry, stop, p) && p[|p| - 1] == at
    }

    /** Contains the entry and every successor of its members, all of them decodable. */
    ghost predicate Closed(entry: nat, stop: nat, s: set<nat>)
    {
      entry in s && forall a :: a in s ==> Decodes(a) && forall b :: b in Successors(a, stop) ==> b in s
    }

    lemma {:induction false} PathStays(entry: nat, stop: nat, s: set<nat>, p: seq<nat>)
      requires Closed(entry, stop, s) && Path(entry, stop, p)
      ensures p[|p| - 1] in s
      decreases |p|
    {
      if |p| > 1 {
        var q := p[..|p| - 1];
        forall i | 0 < i < |q| ensures q[i] in Successors(q[i - 1], stop)
        {
          assert p[i] in Successors(p[i - 1], stop);
        }
        PathStays(entry, stop, s, q);
      }
    }

    lemma Extend(entry: nat, stop: nat, a: nat, b: nat)
      requires Reachable(entry, stop, a) && Decodes(a) && Decodes(b) && b in Successors(a, stop)
      ensures Reachable(entry, stop, b)
    {
      var p :| Path(entry, stop, p) && p[|p| - 1] == a;
      assert Path(entry, stop, p + [b]);
      assert (p + [b])[|p|] == b;
    }

    lemma Start(entry: nat, stop: nat)
      requires Decodes(entry)
      ensures Reachable(entry, stop, entry)
    {
      assert Path(entry, stop, [entry]);
    }

    /** No path goes on after the stop. */
    lemma PathEndsAtStop(entry: nat, stop: nat, p: seq<nat>, i: nat)
      requires Path(entry, stop, p) && i < |p| - 1
      ensures p[i] != stop
    {
      assert p[i + 1] in Successors(p[i], stop);
    }

    /** A set of truly reachable offsets that is closed is the least closed set. */
    lemma LeastClosed(entry: nat, stop: nat, r: set<nat>)
      requires Closed(entry, stop, r) && forall a :: a in r ==> Reachable(entry, stop, a)
      ensures forall s :: Closed(entry, stop, s) ==> r <= s
      ensures forall a :: Reachable(entry, stop, a) <==> a in r
    {
      forall s, a | Closed(entry, stop, s) && a in r ensures a in s
      {
        var p :| Path(entry, stop, p) && p[|p| - 1] == a;
        PathStays(entry, stop, s, p);
      }
      forall a | Reachable(entry, stop, a) ensures a in r
      {
        var p :| Path(entry, stop, p) && p[|p| - 1] == a;
        PathStays(entry, stop, r, p);
      }
    }
  }

  lemma BoundedCount(s: set<nat>, n: nat)
    requires forall a :: a in s ==> a < n
    ensures |s| <= n
  {
    if n == 0 {
      assert s == {};
    } else {
      BoundedCount(s - {n - 1}, n - 1);
    }
  }

  /** Something reachable that a complete exploration could not have: an undecodable target. */
  ghost predicate DeadEnd(p: Program, entry: nat, stop: nat)
  {
    !p.Decodes(entry) ||
    exists a, b :: p.Reachable(entry, stop, a) && p.Decodes(a) && b in p.Successors(a, stop) && !p.Decodes(b)
  }

  /** The worklist holds the entry or successors of reached offsets, and nothing else is missing. */
  ghost predicate Frontier(p: Program, entry: nat, stop: nat, reachable: set<nat>, pending: seq<nat>)
  {
    && (forall a :: a in reachable ==> p.Decodes(a) && p.Reachable(entry, stop, a))
    && (forall b :: b in pending ==> b == entry || Leads(p, stop, reachable, b))
  }

  ghost predicate Leads(p: Program, stop: nat, reachable: set<nat>, b: nat)
  {
    exists a :: a in reachable && p.Decodes(a) && b in p.Successors(a, stop)
  }

  ghost predicate Covered(p: Program, entry: nat, stop: nat, reachable: set<nat>, pending: seq<nat>)
  {
    && (entry in reachable || entry in pending)
    && forall a, b :: a in reachable && p.Decodes(a) && b in p.Successors(a, stop) ==> b in reachable || b in pending
  }

  lemma Undecodable(p: Program, entry: nat, stop: nat, reachable: set<nat>, pending: seq<nat>, at: nat)
    requires Frontier(p, entry, stop, reachable, pending) && at in pending && !p.Decodes(at)
    ensures DeadEnd(p, entry, stop)
  {
    if at != entry { assert Leads(p, stop, reachable, at); }
  }

  lemma Reached(p: Program, entry: nat, stop: nat, reachable: set<nat>, pending: seq<nat>, at: nat)
    requires Frontier(p, entry, stop, reachable, pending) && at in pending && p.Decodes(at)
    ensures p.Reachable(entry, stop, at)
  {
    if at == entry {
      p.Start(entry, stop);
    } else {
      assert Leads(p, stop, reachable, at);
      var a :| a in reachable && p.Decodes(a) && at in p.Successors(a, stop);
      p.Extend(entry, stop, a, at);
    }
  }

  lemma FrontierGrows(p: Program, entry: nat, stop: nat, reachable: set<nat>, pending: seq<nat>, at: nat, queue: seq<nat>)
    requires Frontier(p, entry, stop, reachable, pending) && at in pending && p.Decodes(at)
    requires forall b :: b in queue ==> b in pending || b in p.Successors(at, stop)
    ensures Frontier(p, entry, stop, reachable + {at}, queue)
  {
    Reached(p, entry, stop, reachable, pending, at);
    forall b | b in queue && b != entry ensures Leads(p, stop, reachable + {at}, b)
    {
      if b in pending { assert Leads(p, stop, reachable, b); }
    }
  }

  lemma CoveredGrows(p: Program, entry: nat, stop: nat, reachable: set<nat>, pending: seq<nat>, at: nat, queue: seq<nat>)
    requires Covered(p, entry, stop, reachable, pending) && p.Decodes(at)
    requires forall b :: b in pending ==> b == at || b in queue
    requires forall b :: b in p.Successors(at, stop) ==> b in queue || b in reachable + {at}
    ensures Covered(p, entry, stop, reachable + {at}, queue)
  {
  }

  /** Every reported offset is reachable; a complete report is exactly the least closed set; an
      incomplete one hit the size bound or an undecodable target. */
  method Explore(p: Program, entry: nat, stop: nat) returns (reachable: set<nat>, complete: bool)
    ensures forall a :: a in reachable ==> p.Decodes(a) && p.Reachable(entry, stop, a)
    ensures complete ==> p.Closed(entry, stop, reachable)
    ensures complete ==> forall s :: p.Closed(entry, stop, s) ==> reachable <= s
    ensures complete ==> forall a :: p.Reachable(entry, stop, a) <==> a in reachable
    ensures !complete ==> |reachable| >= 4096 || DeadEnd(p, entry, stop)
  {
    hide DeadEnd, Frontier, Covered;
    reachable, complete := {}, true;
    var pending: seq<nat> := [entry];
    InitialFrontier(p, entry, stop);
    while pending != [] && |reachable| < LIMIT
      invariant Frontier(p, entry, stop, reachable, pending)
      invariant complete ==> Covered(p, entry, stop, reachable, pending)
      invariant !complete ==> DeadEnd(p, entry, stop)
      invariant |reachable| <= p.size
      decreases p.size - |reachable|, |pending|
    {
      var at := pending[0];
      var rest := pending[1..];
      assert pending == [at] + rest;
      if at in reachable {
        Drop(p, entry, stop, reachable, pending);
        pending := rest;
      } else if !p.Decodes(at) {
        Undecodable(p, entry, stop, reachable, pending, at);
        Drop(p, entry, stop, reachable, pending);
        pending, complete := rest, false;
      } else {
        var next := p.Successors(at, stop);
        var queue, ok := Enqueue(p, rest, reachable + {at}, next);
        FrontierGrows(p, entry, stop, reachable, pending, at, queue);
        if !ok { OutOfRange(p, entry, stop, reachable, pending, at); }
        if complete && ok { CoveredGrows(p, entry, stop, reachable, pending, at, queue); }
        FrontierCount(p, entry, stop, reachable + {at}, queue);
        reachable, pending, complete := reachable + {at}, queue, complete && ok;
      }
    }
    if pending != [] { complete := false; }
    Finish(p, entry, stop, reachable, pending, complete);
  }

  lemma InitialFrontier(p: Program, entry: nat, stop: nat)
    ensures Frontier(p, entry, stop, {}, [entry]) && Covered(p, entry, stop, {}, [entry])
  {
  }

  lemma Drop(p: Program, entry: nat, stop: nat, reachable: set<nat>, pending: seq<nat>)
    requires pending != [] && Frontier(p, entry, stop, reachable, pending)
    ensures Frontier(p, entry, stop, reachable, pending[1..])
    ensures pending[0] in reachable && Covered(p, entry, stop, reachable, pending) ==> Covered(p, entry, stop, reachable, pending[1..])
  {
    assert pending == [pending[0]] + pending[1..];
  }

  lemma OutOfRange(p: Program, entry: nat, stop: nat, reachable: set<nat>, pending: seq<nat>, at: nat)
    requires Frontier(p, entry, stop, reachable, pending) && at in pending && p.Decodes(at)
    requires exists b :: b in p.Successors(at, stop) && b >= p.size
    ensures DeadEnd(p, entry, stop)
  {
    Reached(p, entry, stop, reachable, pending, at);
    var b :| b in p.Successors(at, stop) && b >= p.size;
    assert !p.Decodes(b);
  }

  lemma FrontierCount(p: Program, entry: nat, stop: nat, reachable: set<nat>, pending: seq<nat>)
    requires Frontier(p, entry, stop, reachable, pending)
    ensures |reachable| <= p.size
  {
    BoundedCount(reachable, p.size);
  }

  lemma Finish(p: Program, entry: nat, stop: nat, reachable: set<nat>, pending: seq<nat>, complete: bool)
    requires Frontier(p, entry, stop, reachable, pending)
    requires complete ==> pending == [] && Covered(p, entry, stop, reachable, pending)
    ensures forall a :: a in reachable ==> p.Decodes(a) && p.Reachable(entry, stop, a)
    ensures complete ==> p.Closed(entry, stop, reachable)
    ensures complete ==> forall s :: p.Closed(entry, stop, s) ==> reachable <= s
    ensures complete ==> forall a :: p.Reachable(entry, stop, a) <==> a in reachable
  {
    if complete { p.LeastClosed(entry, stop, reachable); }
  }

  /** Queue the successors that are in range and not yet reached; report the others. */
  method Enqueue(p: Program, pending: seq<nat>, reachable: set<nat>, next: seq<nat>)
    returns (queue: seq<nat>, ok: bool)
    ensures forall b :: b in queue <==> b in pending || (b in next && b < p.size && b !in reachable)
    ensures ok <==> forall b :: b in next ==> b < p.size
  {
    queue, ok := pending, true;
    for i := 0 to |next|
      invariant forall b :: b in queue <==> b in pending || (b in next[..i] && b < p.size && b !in reachable)
      invariant ok ==> forall b :: b in next[..i] ==> b < p.size
      invariant !ok ==> exists b :: b in next && b >= p.size
    {
      assert next[..i + 1] == next[..i] + [next[i]] && next[i] in next[..i + 1];
      if next[i] >= p.size { assert next[i] in next; ok := false; } else if next[i] !in reachable { queue := queue + [next[i]]; }
    }
    assert next[..|next|] == next;
  }
}
