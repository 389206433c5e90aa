/** The gate that decides when a question counts as proved (src/harness_verification.hpp, the proof
    and solution records of src/harness_reasoning.hpp, harness_certify and finish in src/harness.cpp).
    `sha` is the record hash. */
module ProofGate {
  import opened Common

  const MAX_RECORDS := 16

  datatype Kind = RecoveredCandidate | VerifiedTransformation | ObservedOutput | AcceptedInput | ChallengeSolve

  datatype Role = CandidateValidation | Output | Acceptance | Solve

  datatype Obligation = Obligation(fact: nat, role: Role)

  datatype Body = Body(id: nat, kind: Kind, fact: nat, question: nat, obligation: Obligation,
                       artifact: nat, investigation: nat, project: nat, answer: nat)

  datatype Proof = Proof(body: Body, digest: nat)

  datatype Solution = Solution(proof: nat, fact: nat, question: nat, obligation: Obligation, kind: Kind, answer: nat)

  datatype Status = Active | Answered | OtherReport

  /** One investigation; `requirements` gives the declared proof kind of each question. */
  datatype Inv = Inv(project: nat, id: nat, artifact: nat, facts: seq<nat>, requirements: Option<seq<Kind>>,
                     proofs: seq<Proof>, solutions: seq<Solution>, verifications: seq<Proof>, revision: nat,
                     requirementsVerified: bool, verifiedSolve: bool, status: Status)

  type Hash = Body -> nat

  /** proof_obligation_id. */
  function ObligationFor(k: Kind, fact: nat): Obligation
  {
    Obligation(fact, match k
                     case RecoveredCandidate => CandidateValidation
                     case VerifiedTransformation => Output
                     case ObservedOutput => Output
                     case AcceptedInput => Acceptance
                     case ChallengeSolve => Solve)
  }

  /* ---------- matching proofs to questions ---------- */

  predicate Requires(inv: Inv, i: nat, k: Kind)
  {
    inv.requirements.Some? && i < |inv.requirements.value| && inv.requirements.value[i] == k
  }

  /** An intact record of the declared kind for exactly this question, artifact and investigation. */
  predicate Eligible(sha: Hash, inv: Inv, i: nat, p: Proof)
  {
    && p.digest == sha(p.body) && Requires(inv, i, p.body.kind) && p.body.fact == i
    && i < |inv.facts| && p.body.question == inv.facts[i] && p.body.obligation == ObligationFor(p.body.kind, i)
    && p.body.artifact == inv.artifact && p.body.investigation == inv.id && p.body.project == inv.project
  }

  predicate Selects(s: Solution, p: Body)
  {
    && s.proof == p.id && s.fact == p.fact && s.question == p.question && s.obligation == p.obligation
    && s.kind == p.kind && s.answer == p.answer
  }

  /** selected_reasoning_proof. */
  predicate IsSelected(inv: Inv, p: Proof) { exists k :: 0 <= k < |inv.solutions| && Selects(inv.solutions[k], p.body) }

  /** The records that may answer question `i`, in the order they are examined: selected reasoning
      proofs, then independent verifications. */
  function Chosen(sha: Hash, inv: Inv, i: nat, ps: seq<Proof>, reasoning: bool): seq<Proof>
  {
    if ps == [] then []
    else
      var front, p := Chosen(sha, inv, i, ps[..|ps| - 1], reasoning), ps[|ps| - 1];
      if Eligible(sha, inv, i, p) && (reasoning ==> IsSelected(inv, p)) then front + [p] else front
  }

  function Candidates(sha: Hash, inv: Inv, i: nat): seq<Proof>
  {
    Chosen(sha, inv, i, inv.proofs, true) + Chosen(sha, inv, i, inv.verifications, false)
  }

  /** Every record states the answer of `kept`. */
  predicate AllState(ps: seq<Proof>, kept: Option<Proof>)
  {
    forall p :: p in ps ==> kept.Some? && p.body.answer == kept.value.body.answer
  }

  function First(ps: seq<Proof>): Option<Proof> { if ps == [] then None else Some(ps[0]) }

  predicate Agree(ps: seq<Proof>) { AllState(ps, First(ps)) }

  /** The matched records of the first `n` questions; contradictory records are an exception. */
  function MatchedUpTo(sha: Hash, inv: Inv, n: nat): Option<seq<Proof>>
  {
    if n == 0 then Some([])
    else
      var before, ps := MatchedUpTo(sha, inv, n - 1), Candidates(sha, inv, n - 1);
      if before.None? || !Agree(ps) then None
      else Some(before.value + if ps == [] then [] else [ps[0]])
  }

  /** verified_requirements. */
  function Matched(sha: Hash, inv: Inv): Option<seq<Proof>>
  {
    if inv.requirements.None? then Some([])
    else if |inv.requirements.value| != |inv.facts| then None
    else MatchedUpTo(sha, inv, |inv.facts|)
  }

  /** The proved answer of a question. */
  function AnswerOf(sha: Hash, inv: Inv, i: nat): Option<nat>
  {
    var ps := Candidates(sha, inv, i);
    if ps == [] then None else Some(ps[0].body.answer)
  }

  predicate AnySolve(ps: seq<Proof>) { exists k :: 0 <= k < |ps| && ps[k].body.kind.ChallengeSolve? }

  /* ---------- operations; `None` is an exception ---------- */

  /** After a change of the reasoning state: match again and record the flags. */
  function Recorded(sha: Hash, inv: Inv, fits: bool): Option<Inv>
  {
    var m := Matched(sha, inv);
    if m.None? || !fits then None
    else
      var all := inv.requirements.Some? && inv.facts != [] && |m.value| == |inv.facts|;
      Some(inv.(revision := inv.revision + 1, requirementsVerified := all, verifiedSolve := all && AnySolve(m.value)))
  }

  /** signed_proof: `kind` is any kind that reasoning can establish, so never a challenge solve. */
  function AddProof(sha: Hash, inv: Inv, kind: Kind, fact: nat, answer: nat, fits: bool): Option<Inv>
  {
    if !inv.status.Active? || kind.ChallengeSolve? || fact >= |inv.facts| || |inv.proofs| >= MAX_RECORDS then None
    else
      var b := Body(inv.revision + 1, kind, fact, inv.facts[fact], ObligationFor(kind, fact), inv.artifact, inv.id, inv.project, answer);
      Recorded(sha, inv.(proofs := inv.proofs + [Proof(b, sha(b))]), fits)
  }

  function FindProof(ps: seq<Proof>, id: nat): Option<Proof>
  {
    if ps == [] then None else if ps[0].body.id == id then Some(ps[0]) else FindProof(ps[1..], id)
  }

  predicate Contradicted(inv: Inv, fact: nat, answer: nat)
  {
    exists k :: 0 <= k < |inv.solutions| && inv.solutions[k].fact == fact && inv.solutions[k].answer != answer
  }

  /** The "solution" operation: select an answer that an intact proof states. */
  function SelectAnswer(sha: Hash, inv: Inv, id: nat, answer: nat, fits: bool): Option<Inv>
  {
    var p := FindProof(inv.proofs, id);
    if !inv.status.Active? || p.None? || p.value.digest != sha(p.value.body) || answer != p.value.body.answer
       || Contradicted(inv, p.value.body.fact, answer) || |inv.solutions| >= MAX_RECORDS then None
    else
      var b := p.value.body;
      Recorded(sha, inv.(solutions := inv.solutions + [Solution(id, b.fact, b.question, b.obligation, b.kind, answer)]), fits)
  }

  /** Any other reasoning operation leaves proofs and solutions alone. */
  function OtherReasoning(sha: Hash, inv: Inv, fits: bool): Option<Inv>
  {
    if !inv.status.Active? then None else Recorded(sha, inv, fits)
  }

  /** harness_certify: `graded` is the independent grader's verdict for this artifact and question. */
  function Certify(sha: Hash, inv: Inv, fact: nat, answer: nat, id: nat, graded: bool): Option<Inv>
  {
    if !graded || !inv.status.Active? || fact >= |inv.facts| || !Requires(inv, fact, ChallengeSolve)
       || |inv.verifications| >= MAX_RECORDS then None
    else
      var b := Body(id, ChallengeSolve, fact, inv.facts[fact], ObligationFor(ChallengeSolve, fact), inv.artifact, inv.id, inv.project, answer);
      var next := inv.(verifications := inv.verifications + [Proof(b, sha(b))]);
      var m := Matched(sha, next);
      if m.None? then None
      else
        var all := |m.value| == |inv.facts|;
        Some(next.(requirementsVerified := all, verifiedSolve := all && AnySolve(m.value)))
  }

  /** requirement_report: one claim per question, or an exception. */
  function Report(sha: Hash, inv: Inv): Option<seq<Proof>>
  {
    var m := Matched(sha, inv);
    if m.None? || |m.value| != |inv.facts| || m.value == [] then None else m
  }

  /** finish with "answered" where proof kinds are declared: the report must be the verifier's own. */
  function FinishAnswered(sha: Hash, inv: Inv, reportMatches: bool): Option<Inv>
  {
    var r := Report(sha, inv);
    if !inv.status.Active? || inv.requirements.None? || r.None? || !reportMatches then None
    else Some(inv.(status := Answered, requirementsVerified := true, verifiedSolve := AnySolve(r.value)))
  }

  /* ---------- the lookups as loops ---------- */

  method SelectedProof(inv: Inv, p: Proof) returns (found: bool)
    ensures found == IsSelected(inv, p)
  {
    for k := 0 to |inv.solutions|
      invariant forall j :: 0 <= j < k ==> !Selects(inv.solutions[j], p.body)
    {
      if Selects(inv.solutions[k], p.body) { return true; }
    }
    return false;
  }

  lemma AllStateJoin(a: seq<Proof>, b: seq<Proof>, kept: Option<Proof>)
    ensures AllState(a + b, kept) <==> AllState(a, kept) && AllState(b, kept)
  {
    assert forall p :: p in a + b <==> p in a || p in b;
  }

  lemma NothingKept(ps: seq<Proof>)
    ensures AllState(ps, None) <==> ps == []
  {
    if ps != [] {
      var p := ps[0];
      assert p in ps;
    }
  }

  function Or(first: Option<Proof>, ps: seq<Proof>): Option<Proof> { if first.Some? then first else First(ps) }

  /** One pass over a list of records, keeping the first match and insisting on its answer. */
  method Scan(sha: Hash, inv: Inv, i: nat, ps: seq<Proof>, reasoning: bool, first: Option<Proof>) returns (r: Option<Option<Proof>>)
    ensures var c := Chosen(sha, inv, i, ps, reasoning);
            if AllState(c, Or(first, c)) then r == Some(Or(first, c)) else r == None
  {
    var kept := first;
    for n := 0 to |ps|
      invariant var c := Chosen(sha, inv, i, ps[..n], reasoning); kept == Or(first, c) && AllState(c, kept)
    {
      assert ps[..n + 1][..n] == ps[..n];
      ghost var before, after := Chosen(sha, inv, i, ps[..n], reasoning), Chosen(sha, inv, i, ps[..n + 1], reasoning);
      var selected := true;
      if reasoning { selected := SelectedProof(inv, ps[n]); }
      var take := Eligible(sha, inv, i, ps[n]) && selected;
      assert after == before + if take then [ps[n]] else [];
      if take {
        AllStateJoin(before, [ps[n]], kept);
        assert AllState([ps[n]], Some(ps[n]));
        if kept.None? {
          NothingKept(before);
          kept := Some(ps[n]);
        } else if kept.value.body.answer != ps[n].body.answer {
          Contradiction(sha, inv, i, ps, reasoning, n, kept);
          return None;
        }
      }
    }
    assert ps[..|ps|] == ps;
    return Some(kept);
  }

  /** A record that disagrees with the kept answer spoils the whole list. */
  lemma Contradiction(sha: Hash, inv: Inv, i: nat, ps: seq<Proof>, reasoning: bool, n: nat, kept: Option<Proof>)
    requires n < |ps| && kept.Some? && kept.value.body.answer != ps[n].body.answer
    requires Chosen(sha, inv, i, ps[..n + 1], reasoning) == Chosen(sha, inv, i, ps[..n], reasoning) + [ps[n]]
    ensures !AllState(Chosen(sha, inv, i, ps, reasoning), kept)
    ensures Chosen(sha, inv, i, ps[..n], reasoning) <= Chosen(sha, inv, i, ps, reasoning)
  {
    ChosenPrefix(sha, inv, i, ps, reasoning, n + 1);
    var k := |Chosen(sha, inv, i, ps[..n], reasoning)|;
    assert Chosen(sha, inv, i, ps, reasoning)[k] == ps[n];
  }

  lemma {:induction false} ChosenPrefix(sha: Hash, inv: Inv, i: nat, ps: seq<Proof>, reasoning: bool, n: nat)
    requires n <= |ps|
    ensures Chosen(sha, inv, i, ps[..n], reasoning) <= Chosen(sha, inv, i, ps, reasoning)
    decreases |ps|
  {
    if n < |ps| {
      assert ps[..|ps| - 1][..n] == ps[..n];
      ChosenPrefix(sha, inv, i, ps[..|ps| - 1], reasoning, n);
    } else {
      assert ps[..n] == ps;
    }
  }

  /** The record that answers question `i`, unless two of them contradict each other. */
  method MatchQuestion(sha: Hash, inv: Inv, i: nat) returns (r: Option<Option<Proof>>)
    ensures r.Some? <==> Agree(Candidates(sha, inv, i))
    ensures r.Some? ==> r.value == if Candidates(sha, inv, i) == [] then None else Some(Candidates(sha, inv, i)[0])
  {
    ghost var a, b := Chosen(sha, inv, i, inv.proofs, true), Chosen(sha, inv, i, inv.verifications, false);
    assert Candidates(sha, inv, i) == a + b && First(a + b) == Or(First(a), b);
    AllStateJoin(a, b, First(a + b));
    hide Chosen, AllState, Candidates;
    r := Scan(sha, inv, i, inv.proofs, true, None);
    if r.Some? { r := Scan(sha, inv, i, inv.verifications, false, r.value); }
    assert a == [] ==> AllState(a, First(a + b));
  }

  method VerifiedRequirements(sha: Hash, inv: Inv) returns (matched: Option<seq<Proof>>)
    ensures matched == Matched(sha, inv)
  {
    hide Candidates, Agree, Chosen;
    if inv.requirements.None? { return Some([]); }
    if |inv.requirements.value| != |inv.facts| { return None; }
    var found: seq<Proof> := [];
    for i := 0 to |inv.facts|
      invariant MatchedUpTo(sha, inv, i) == Some(found)
    {
      var selected := MatchQuestion(sha, inv, i);
      if selected.None? {
        MatchedFails(sha, inv, i + 1, |inv.facts|);
        return None;
      }
      assert found + [] == found;
      if selected.value.Some? { found := found + [selected.value.value]; }
    }
    return Some(found);
  }

  lemma {:induction false} MatchedFails(sha: Hash, inv: Inv, n: nat, m: nat)
    requires n <= m && MatchedUpTo(sha, inv, n).None?
    ensures MatchedUpTo(sha, inv, m).None?
    decreases m
  {
    if n < m { MatchedFails(sha, inv, n, m - 1); }
  }
}
