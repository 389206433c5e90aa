/** Runs of an investigation's proof records: what "verified" means in every reachable state. */
module ProofRuns {
  import opened Common
  import opened ProofGate

  datatype Operation =
    | DoProof(kind: Kind, fact: nat, answer: nat, fits: bool)
    | DoSelect(proof: nat, answer: nat, fits: bool)
    | DoOther(fits: bool)
    | DoCertify(fact: nat, answer: nat, id: nat, graded: bool)
    | DoFinish(reportMatches: bool)
    | DoOtherFinish

  /** An answer that passed independent grading for a question. */
  datatype Grade = Grade(fact: nat, answer: nat)

  datatype World = World(inv: Inv, grades: set<Grade>)

  function OrElse(w: World, d: Option<Inv>): World { if d.Some? then w.(inv := d.value) else w }

  function Apply(sha: Hash, w: World, op: Operation): World
  {
    match op
    case DoProof(kind, fact, answer, fits) => OrElse(w, AddProof(sha, w.inv, kind, fact, answer, fits))
    case DoSelect(proof, answer, fits) => OrElse(w, SelectAnswer(sha, w.inv, proof, answer, fits))
    case DoOther(fits) => OrElse(w, OtherReasoning(sha, w.inv, fits))
    case DoCertify(fact, answer, id, graded) =>
      var d := Certify(sha, w.inv, fact, answer, id, graded);
      if d.None? then w else World(d.value, w.grades + {Grade(fact, answer)})
    case DoFinish(reportMatches) => OrElse(w, FinishAnswered(sha, w.inv, reportMatches))
    case DoOtherFinish =>
      if !w.inv.status.Active? then w else w.(inv := w.inv.(status := OtherReport))
  }

  function Run(sha: Hash, w: World, ops: seq<Operation>): World
    decreases |ops|
  {
    if ops == [] then w else Run(sha, Apply(sha, w, ops[0]), ops[1..])
  }

  /** A new investigation: the declared kinds, if any, are one per question. */
  function Start(project: nat, id: nat, artifact: nat, facts: seq<nat>, requirements: Option<seq<Kind>>): World
  {
    World(Inv(project, id, artifact, facts, requirements, [], [], [], 0, false, false, Active), {})
  }

  /** Only certification leaves verification records, each of a passing grade; reasoning proofs are of
      other kinds, and selected answers to one question agree. */
  ghost predicate Sound(w: World)
  {
    && (forall k :: 0 <= k < |w.inv.verifications| ==>
          w.inv.verifications[k].body.kind.ChallengeSolve?
          && Grade(w.inv.verifications[k].body.fact, w.inv.verifications[k].body.answer) in w.grades)
    && (forall k :: 0 <= k < |w.inv.proofs| ==> !w.inv.proofs[k].body.kind.ChallengeSolve?)
    && (forall j, k :: 0 <= j < |w.inv.solutions| && 0 <= k < |w.inv.solutions| && w.inv.solutions[j].fact == w.inv.solutions[k].fact ==>
          w.inv.solutions[j].answer == w.inv.solutions[k].answer)
  }

  /** Some question that asks for independent grading has a passing grade. */
  ghost predicate Graded(w: World)
  {
    exists g :: g in w.grades && Requires(w.inv, g.fact, ChallengeSolve)
  }

  /** Records and answers are only added; questions and identity are fixed. */
  ghost predicate Extends(inv: Inv, next: Inv)
  {
    && inv.proofs <= next.proofs && inv.solutions <= next.solutions && inv.verifications <= next.verifications
    && next.facts == inv.facts && next.requirements == inv.requirements && next.artifact == inv.artifact
    && next.id == inv.id && next.project == inv.project
  }

  lemma {:induction false} ChosenHas(sha: Hash, inv: Inv, i: nat, ps: seq<Proof>, reasoning: bool, p: Proof)
    ensures p in Chosen(sha, inv, i, ps, reasoning) <==> p in ps && Eligible(sha, inv, i, p) && (reasoning ==> IsSelected(inv, p))
    decreases |ps|
  {
    hide Eligible, IsSelected;
    if ps != [] { ChosenHas(sha, inv, i, ps[..|ps| - 1], reasoning, p); }
  }

  lemma CandidatesHas(sha: Hash, inv: Inv, i: nat, p: Proof)
    ensures p in Candidates(sha, inv, i) <==>
              Eligible(sha, inv, i, p) && ((p in inv.proofs && IsSelected(inv, p)) || p in inv.verifications)
  {
    hide Chosen, Eligible, IsSelected;
    ChosenHas(sha, inv, i, inv.proofs, true, p);
    ChosenHas(sha, inv, i, inv.verifications, false, p);
  }

  /** A record that answers a question still does so after anything is added. */
  lemma CandidateStays(sha: Hash, inv: Inv, next: Inv, i: nat, p: Proof)
    requires Extends(inv, next) && p in Candidates(sha, inv, i)
    ensures p in Candidates(sha, next, i)
  {
    CandidatesHas(sha, inv, i, p);
    CandidatesHas(sha, next, i, p);
    hide Candidates;
    if p in inv.proofs && IsSelected(inv, p) {
      var k :| 0 <= k < |inv.solutions| && Selects(inv.solutions[k], p.body);
      assert next.solutions[k] == inv.solutions[k];
      assert IsSelected(next, p);
      var j :| 0 <= j < |inv.proofs| && inv.proofs[j] == p;
      assert next.proofs[j] == p;
    } else {
      var j :| 0 <= j < |inv.verifications| && inv.verifications[j] == p;
      assert next.verifications[j] == p;
    }
  }

  lemma {:induction false} MatchedAgree(sha: Hash, inv: Inv, n: nat, i: nat)
    requires MatchedUpTo(sha, inv, n).Some? && i < n
    ensures Agree(Candidates(sha, inv, i))
    decreases n
  {
    hide Candidates, Agree;
    if i < n - 1 { MatchedAgree(sha, inv, n - 1, i); }
  }

  /** A proved question keeps its answer, provided the new records still match without contradiction. */
  lemma AnswerStays(sha: Hash, inv: Inv, next: Inv, i: nat)
    requires Extends(inv, next) && Matched(sha, next).Some? && next.requirements.Some? && i < |inv.facts|
    requires AnswerOf(sha, inv, i).Some?
    ensures AnswerOf(sha, next, i) == AnswerOf(sha, inv, i)
  {
    hide Extends, Chosen, MatchedUpTo;
    MatchedAgree(sha, next, |next.facts|, i) by { assert next.facts == inv.facts by { SameFacts(inv, next); } }
    var p := Candidates(sha, inv, i)[0];
    CandidateStays(sha, inv, next, i, p);
    hide Candidates;
    var ps := Candidates(sha, next, i);
    var j :| 0 <= j < |ps| && ps[j] == p;
  }

  lemma SameFacts(inv: Inv, next: Inv)
    requires Extends(inv, next)
    ensures next.facts == inv.facts
  {
  }

  lemma {:induction false} MatchedAre(sha: Hash, inv: Inv, n: nat, p: Proof)
    requires MatchedUpTo(sha, inv, n).Some? && p in MatchedUpTo(sha, inv, n).value
    ensures exists i :: 0 <= i < n && p in Candidates(sha, inv, i)
    decreases n
  {
    hide Candidates, Agree;
    if n > 0 && p in MatchedUpTo(sha, inv, n - 1).value { MatchedAre(sha, inv, n - 1, p); }
  }

  /** A matched challenge solve is a certified one. */
  lemma SolveIsGraded(sha: Hash, w: World, m: seq<Proof>)
    requires Sound(w) && w.inv.requirements.Some? && Matched(sha, w.inv) == Some(m) && AnySolve(m)
    ensures Graded(w)
  {
    var k :| 0 <= k < |m| && m[k].body.kind.ChallengeSolve?;
    MatchedAre(sha, w.inv, |w.inv.facts|, m[k]);
    var i :| 0 <= i < |w.inv.facts| && m[k] in Candidates(sha, w.inv, i);
    CandidatesHas(sha, w.inv, i, m[k]);
    assert m[k] in w.inv.verifications;
    assert Grade(m[k].body.fact, m[k].body.answer) in w.grades;
  }

  /* ---------- one operation at a time ---------- */

  /** The same records, whatever the flags. */
  predicate SameRecords(a: Inv, b: Inv)
  {
    && a.proofs == b.proofs && a.solutions == b.solutions && a.verifications == b.verifications && a.facts == b.facts
    && a.requirements == b.requirements && a.artifact == b.artifact && a.id == b.id && a.project == b.project
  }

  lemma {:induction false} SameChosen(sha: Hash, a: Inv, b: Inv, i: nat, ps: seq<Proof>, reasoning: bool)
    requires SameRecords(a, b)
    ensures Chosen(sha, a, i, ps, reasoning) == Chosen(sha, b, i, ps, reasoning)
    decreases |ps|
  {
    if ps != [] { SameChosen(sha, a, b, i, ps[..|ps| - 1], reasoning); }
  }

  lemma SameCandidates(sha: Hash, a: Inv, b: Inv, i: nat)
    requires SameRecords(a, b)
    ensures Candidates(sha, a, i) == Candidates(sha, b, i) && AnswerOf(sha, a, i) == AnswerOf(sha, b, i)
  {
    hide Chosen;
    SameChosen(sha, a, b, i, a.proofs, true);
    SameChosen(sha, a, b, i, a.verifications, false);
  }

  lemma {:induction false} SameMatchedUpTo(sha: Hash, a: Inv, b: Inv, n: nat)
    requires SameRecords(a, b)
    ensures MatchedUpTo(sha, a, n) == MatchedUpTo(sha, b, n)
    decreases n
  {
    hide Candidates, Agree;
    if n > 0 {
      SameMatchedUpTo(sha, a, b, n - 1);
      SameCandidates(sha, a, b, n - 1);
    }
  }

  lemma SameMatched(sha: Hash, a: Inv, b: Inv)
    requires SameRecords(a, b)
    ensures Matched(sha, a) == Matched(sha, b)
  {
    hide MatchedUpTo;
    SameMatchedUpTo(sha, a, b, |a.facts|);
  }

  /** An operation only adds records, and if it added any, the result matches without contradiction. */
  lemma OperationExtends(sha: Hash, w: World, op: Operation)
    ensures var next := Apply(sha, w, op).inv;
            Extends(w.inv, next) && (SameRecords(w.inv, next) || Matched(sha, next).Some?)
  {
    hide Matched, FindProof, Contradicted, AnySolve, Report;
    var inv, next := w.inv, Apply(sha, w, op).inv;
    match op {
      case DoProof(kind, fact, answer, fits) => SameMatched(sha, inv.(proofs := next.proofs), next);
      case DoSelect(proof, answer, fits) => SameMatched(sha, inv.(solutions := next.solutions), next);
      case DoCertify(fact, answer, id, graded) => SameMatched(sha, inv.(verifications := next.verifications), next);
      case _ =>
    }
  }

  lemma StepAnswer(sha: Hash, w: World, op: Operation, i: nat)
    requires w.inv.requirements.Some? && i < |w.inv.facts| && AnswerOf(sha, w.inv, i).Some?
    ensures AnswerOf(sha, Apply(sha, w, op).inv, i) == AnswerOf(sha, w.inv, i)
  {
    hide Apply, AnswerOf, Matched;
    var next := Apply(sha, w, op).inv;
    OperationExtends(sha, w, op);
    if SameRecords(w.inv, next) { SameCandidates(sha, w.inv, next, i); } else { AnswerStays(sha, w.inv, next, i); }
  }

  /** A question once proved stays proved, with the same answer, through everything that follows. */
  lemma {:induction false} AnswersArePermanent(sha: Hash, w: World, ops: seq<Operation>, i: nat)
    requires w.inv.requirements.Some? && i < |w.inv.facts| && AnswerOf(sha, w.inv, i).Some?
    ensures AnswerOf(sha, Run(sha, w, ops).inv, i) == AnswerOf(sha, w.inv, i)
    decreases |ops|
  {
    hide Apply, AnswerOf;
    if ops != [] {
      StepAnswer(sha, w, ops[0], i);
      OperationExtends(sha, w, ops[0]);
      AnswersArePermanent(sha, Apply(sha, w, ops[0]), ops[1..], i);
    }
  }

  /* ---------- the invariant ---------- */

  /** Every question has a matched record of its declared kind. */
  ghost predicate AllProved(sha: Hash, inv: Inv)
  {
    inv.requirements.Some? && inv.facts != [] && forall i :: 0 <= i < |inv.facts| ==> AnswerOf(sha, inv, i).Some?
  }

  lemma {:induction false} AllMatched(sha: Hash, inv: Inv, n: nat)
    requires MatchedUpTo(sha, inv, n).Some?
    ensures |MatchedUpTo(sha, inv, n).value| <= n
    ensures |MatchedUpTo(sha, inv, n).value| == n ==> forall i :: 0 <= i < n ==> AnswerOf(sha, inv, i).Some?
    decreases n
  {
    hide Candidates, Agree;
    if n > 0 { AllMatched(sha, inv, n - 1); }
  }

  /** What the stored flags and the final status mean. */
  ghost predicate Meant(sha: Hash, w: World)
  {
    && (w.inv.verifiedSolve ==> Graded(w))
    && (w.inv.status.Answered? ==> AllProved(sha, w.inv))
  }

  lemma RecordsSound(sha: Hash, w: World, op: Operation)
    requires Sound(w)
    ensures Sound(Apply(sha, w, op))
  {
    hide Matched, AnySolve, Report;
    if op.DoSelect? { FoundIn(w.inv.proofs, op.proof); }
  }

  lemma {:induction false} FoundIn(ps: seq<Proof>, id: nat)
    ensures FindProof(ps, id).Some? ==> FindProof(ps, id).value in ps && FindProof(ps, id).value.body.id == id
  {
    if ps != [] { FoundIn(ps[1..], id); }
  }

  lemma GradesGrow(sha: Hash, w: World, op: Operation)
    ensures w.grades <= Apply(sha, w, op).grades
  {
    hide AddProof, SelectAnswer, OtherReasoning, Certify, FinishAnswered;
  }

  /** The flag is set only by a match that includes a certified solve. */
  lemma FlagIsGraded(sha: Hash, w: World, op: Operation)
    requires Sound(Apply(sha, w, op)) && Apply(sha, w, op).inv.verifiedSolve && (w.inv.verifiedSolve ==> Graded(w))
    ensures Graded(Apply(sha, w, op))
  {
    var w' := Apply(sha, w, op);
    if !w.inv.verifiedSolve {
      assert w'.inv.requirements.Some? && Matched(sha, w'.inv).Some? && AnySolve(Matched(sha, w'.inv).value) by { FlagMeans(sha, w, op); }
      SolveIsGraded(sha, w', Matched(sha, w'.inv).value);
    }
  }

  lemma FlagMeans(sha: Hash, w: World, op: Operation)
    requires Apply(sha, w, op).inv.verifiedSolve && !w.inv.verifiedSolve
    ensures var inv := Apply(sha, w, op).inv;
            inv.requirements.Some? && Matched(sha, inv).Some? && AnySolve(Matched(sha, inv).value)
  {
    hide Matched, FindProof, Contradicted, AnySolve;
    var inv, next := w.inv, Apply(sha, w, op).inv;
    match op {
      case DoProof(kind, fact, answer, fits) => SameMatched(sha, inv.(proofs := next.proofs), next);
      case DoSelect(proof, answer, fits) => SameMatched(sha, inv.(solutions := next.solutions), next);
      case DoOther(fits) => SameMatched(sha, inv, next);
      case DoCertify(fact, answer, id, graded) => SameMatched(sha, inv.(verifications := next.verifications), next);
      case DoFinish(reportMatches) => SameMatched(sha, inv, next);
      case DoOtherFinish =>
    }
  }

  /** Only a complete report ends an investigation as answered, and an answered one is closed. */
  lemma StatusMeans(sha: Hash, w: World, op: Operation)
    requires w.inv.status.Answered? ==> AllProved(sha, w.inv)
    ensures Apply(sha, w, op).inv.status.Answered? ==> AllProved(sha, Apply(sha, w, op).inv)
  {
    hide FindProof, Contradicted, AnySolve, MatchedUpTo, Candidates;
    var inv, next := w.inv, Apply(sha, w, op).inv;
    if op.DoFinish? && next != inv {
      AllMatched(sha, inv, |inv.facts|);
      forall i | 0 <= i < |inv.facts| ensures AnswerOf(sha, next, i).Some? { SameCandidates(sha, inv, next, i); }
    }
  }

  lemma {:induction false} RunMeans(sha: Hash, w: World, ops: seq<Operation>)
    requires Sound(w) && Meant(sha, w)
    ensures Sound(Run(sha, w, ops)) && Meant(sha, Run(sha, w, ops))
    decreases |ops|
  {
    hide Sound, Apply, AllProved, Graded;
    if ops != [] {
      RecordsSound(sha, w, ops[0]);
      StatusMeans(sha, w, ops[0]);
      if Apply(sha, w, ops[0]).inv.verifiedSolve { FlagIsGraded(sha, w, ops[0]); }
      RunMeans(sha, Apply(sha, w, ops[0]), ops[1..]);
    }
  }

  /* ---------- selections rest on stored proofs ---------- */

  predicate Backs(sha: Hash, p: Proof, s: Solution) { p.digest == sha(p.body) && Selects(s, p.body) }

  predicate HasProof(sha: Hash, ps: seq<Proof>, s: Solution) { exists k :: 0 <= k < |ps| && Backs(sha, ps[k], s) }

  /** Every selected answer names an intact stored proof in all its fields, and no collection outgrows its limit. */
  ghost predicate Backed(sha: Hash, inv: Inv)
  {
    && |inv.proofs| <= 16 && |inv.solutions| <= 16 && |inv.verifications| <= 16
    && forall s :: s in inv.solutions ==> HasProof(sha, inv.proofs, s)
  }

  lemma StepBacked(sha: Hash, w: World, op: Operation)
    requires Backed(sha, w.inv)
    ensures Backed(sha, Apply(sha, w, op).inv)
  {
    hide Matched, AnySolve, Report, Contradicted, FindProof;
    var inv, next := w.inv, Apply(sha, w, op).inv;
    OperationExtends(sha, w, op);
    forall x | x in next.solutions ensures HasProof(sha, next.proofs, x)
    {
      if x in inv.solutions {
        var k :| 0 <= k < |inv.proofs| && Backs(sha, inv.proofs[k], x);
        assert next.proofs[k] == inv.proofs[k];
      } else {
        FoundIn(inv.proofs, op.proof);
        var k :| 0 <= k < |inv.proofs| && inv.proofs[k] == FindProof(inv.proofs, op.proof).value;
        assert Backs(sha, next.proofs[k], x);
      }
    }
  }

  lemma {:induction false} SelectionsAreBacked(sha: Hash, w: World, ops: seq<Operation>)
    requires Backed(sha, w.inv)
    ensures Backed(sha, Run(sha, w, ops).inv)
    decreases |ops|
  {
    hide Apply, Backed;
    if ops != [] {
      StepBacked(sha, w, ops[0]);
      SelectionsAreBacked(sha, Apply(sha, w, ops[0]), ops[1..]);
    }
  }

  /* ---------- the theorems ---------- */

  /** The step that a proof of the declared kind discharges. */
  predicate RoleOf(k: Kind, role: Role)
  {
    && (k.RecoveredCandidate? ==> role == CandidateValidation) && (k.AcceptedInput? ==> role == Acceptance)
    && (k.VerifiedTransformation? || k.ObservedOutput? ==> role == Output) && (k.ChallengeSolve? ==> role == Solve)
  }

  /** A stored intact record of exactly the declared kind, for this question of this investigation; a
      reasoning record must also be selected. */
  ghost predicate Proves(sha: Hash, inv: Inv, i: nat, p: Proof)
  {
    && (p in inv.verifications || (p in inv.proofs && exists k :: 0 <= k < |inv.solutions| && Chooses(inv.solutions[k], p)))
    && p.digest == sha(p.body) && inv.requirements.Some? && i < |inv.requirements.value| && i < |inv.facts|
    && p.body.kind == inv.requirements.value[i] && p.body.fact == i && p.body.question == inv.facts[i]
    && p.body.obligation.fact == i && RoleOf(p.body.kind, p.body.obligation.role)
    && p.body.artifact == inv.artifact && p.body.investigation == inv.id && p.body.project == inv.project
  }

  /** The selected answer is this record's, in every field. */
  predicate Chooses(s: Solution, p: Proof)
  {
    s == Solution(p.body.id, p.body.fact, p.body.question, p.body.obligation, p.body.kind, p.body.answer)
  }

  lemma CandidatesProve(sha: Hash, inv: Inv, i: nat, p: Proof)
    ensures p in Candidates(sha, inv, i) <==> Proves(sha, inv, i, p)
  {
    CandidatesHas(sha, inv, i, p);
    hide Candidates;
    assert forall k :: 0 <= k < |inv.solutions| ==> (Selects(inv.solutions[k], p.body) <==> Chooses(inv.solutions[k], p));
  }

  /** A question is answered exactly when some record proves it, and then with such a record's answer. */
  lemma AnsweredExactly(sha: Hash, inv: Inv, i: nat)
    ensures AnswerOf(sha, inv, i).Some? <==> Proved(sha, inv, i)
    ensures AnswerOf(sha, inv, i).Some? ==> exists p :: Proves(sha, inv, i, p) && p.body.answer == AnswerOf(sha, inv, i).value
  {
    hide Candidates, Proves;
    var ps := Candidates(sha, inv, i);
    if ps != [] { CandidatesProve(sha, inv, i, ps[0]); }
    forall p | Proves(sha, inv, i, p) ensures ps != [] { CandidatesProve(sha, inv, i, p); }
  }

  ghost predicate Proved(sha: Hash, inv: Inv, i: nat) { exists p :: Proves(sha, inv, i, p) }

  /** Two records prove different answers to one question. */
  ghost predicate Disputed(sha: Hash, inv: Inv, i: nat)
  {
    exists p, q :: Proves(sha, inv, i, p) && Proves(sha, inv, i, q) && p.body.answer != q.body.answer
  }

  lemma AgreeExactly(sha: Hash, inv: Inv, i: nat)
    ensures Agree(Candidates(sha, inv, i)) <==> !Disputed(sha, inv, i)
  {
    hide Candidates, Proves;
    var ps := Candidates(sha, inv, i);
    forall p ensures p in ps <==> Proves(sha, inv, i, p) { CandidatesProve(sha, inv, i, p); }
    if ps != [] {
      assert ps[0] in ps;
      if !Agree(ps) {
        var p :| p in ps && p.body.answer != ps[0].body.answer;
        assert Proves(sha, inv, i, p) && Proves(sha, inv, i, ps[0]);
      }
    }
  }

  lemma {:induction false} MatchedExactly(sha: Hash, inv: Inv, n: nat)
    ensures MatchedUpTo(sha, inv, n).Some? <==> forall i :: 0 <= i < n ==> !Disputed(sha, inv, i)
    ensures MatchedUpTo(sha, inv, n).Some? ==>
              (|MatchedUpTo(sha, inv, n).value| == n <==> forall i :: 0 <= i < n ==> Proved(sha, inv, i))
              && |MatchedUpTo(sha, inv, n).value| <= n
    decreases n
  {
    hide Candidates, Agree, Disputed, Proved;
    if n > 0 {
      MatchedExactly(sha, inv, n - 1);
      AgreeExactly(sha, inv, n - 1);
      AnsweredExactly(sha, inv, n - 1);
      assert (forall i :: 0 <= i < n ==> Proved(sha, inv, i)) <==> Proved(sha, inv, n - 1) && forall i :: 0 <= i < n - 1 ==> Proved(sha, inv, i);
    }
  }

  /** "Answered" is reached exactly when the investigation is open, its declared kinds are one for each
      of its questions, every question is proved, none is disputed, and the report is the verifier's. */
  lemma AnsweredGate(sha: Hash, inv: Inv, reportMatches: bool)
    ensures FinishAnswered(sha, inv, reportMatches).Some? <==>
              && inv.status.Active? && reportMatches && inv.requirements.Some? && |inv.requirements.value| == |inv.facts| != 0
              && (forall i :: 0 <= i < |inv.facts| ==> Proved(sha, inv, i) && !Disputed(sha, inv, i))
    ensures FinishAnswered(sha, inv, reportMatches).Some? ==>
              var next := FinishAnswered(sha, inv, reportMatches).value;
              && next == inv.(status := Answered, requirementsVerified := true, verifiedSolve := next.verifiedSolve)
              && (next.verifiedSolve <==> exists i :: 0 <= i < |inv.facts| && AsksGrading(inv, i))
  {
    hide MatchedUpTo, Disputed, Proved, AnySolve;
    MatchedExactly(sha, inv, |inv.facts|);
    if FinishAnswered(sha, inv, reportMatches).Some? { SolvesExactly(sha, inv, |inv.facts|); }
  }

  /** In every run: "verified solve" is claimed only after an independent grader passed an answer to
      a question that asked for it; "answered" only if every question is proved in its declared kind;
      and the selected answers to one question never disagree. */
  lemma GateIsSound(sha: Hash, project: nat, id: nat, artifact: nat, facts: seq<nat>, requirements: Option<seq<Kind>>, ops: seq<Operation>)
    ensures var w := Run(sha, Start(project, id, artifact, facts, requirements), ops);
            && (w.inv.verifiedSolve ==> exists g :: g in w.grades && AsksGrading(w.inv, g.fact))
            && (w.inv.status.Answered? ==> w.inv.facts != [] && forall i :: 0 <= i < |w.inv.facts| ==> Proved(sha, w.inv, i))
            && (forall j, k :: 0 <= j < |w.inv.solutions| && 0 <= k < |w.inv.solutions| && w.inv.solutions[j].fact == w.inv.solutions[k].fact ==>
                  w.inv.solutions[j].answer == w.inv.solutions[k].answer)
  {
    var w := Run(sha, Start(project, id, artifact, facts, requirements), ops);
    RunMeans(sha, Start(project, id, artifact, facts, requirements), ops);
    hide Run, Proved, AnswerOf;
    if w.inv.verifiedSolve { assert exists g :: g in w.grades && Requires(w.inv, g.fact, ChallengeSolve) && AsksGrading(w.inv, g.fact); }
    if w.inv.status.Answered? {
      forall i | 0 <= i < |w.inv.facts| ensures Proved(sha, w.inv, i) { AnsweredExactly(sha, w.inv, i); }
    }
  }

  /** The question's declared kind is a challenge solve. */
  predicate AsksGrading(inv: Inv, i: nat)
  {
    inv.requirements.Some? && i < |inv.requirements.value| && inv.requirements.value[i] == ChallengeSolve
  }

  /** An answered question rests on a record that proves it, and where independent grading is asked on
      a passing grade for that very answer. */
  lemma AnswerIsProved(sha: Hash, w: World, i: nat)
    requires Sound(w) && i < |w.inv.facts| && AnswerOf(sha, w.inv, i).Some?
    ensures exists p :: Proves(sha, w.inv, i, p) && Some(p.body.answer) == AnswerOf(sha, w.inv, i)
    ensures AsksGrading(w.inv, i) ==> Grade(i, AnswerOf(sha, w.inv, i).value) in w.grades
  {
    var p := Candidates(sha, w.inv, i)[0];
    CandidatesProve(sha, w.inv, i, p);
    assert Proves(sha, w.inv, i, p);
  }

  /* ---------- what operations establish ---------- */

  /** Some matched record is a challenge solve exactly when some question asks for one and all are matched. */
  lemma {:induction false} SolvesExactly(sha: Hash, inv: Inv, n: nat)
    requires MatchedUpTo(sha, inv, n).Some? && (forall i :: 0 <= i < n ==> Proved(sha, inv, i))
    ensures AnySolve(MatchedUpTo(sha, inv, n).value) <==> exists i :: 0 <= i < n && AsksGrading(inv, i)
    decreases n
  {
    hide Candidates, Agree, Proves;
    if n > 0 {
      SolvesExactly(sha, inv, n - 1);
      AnsweredExactly(sha, inv, n - 1);
      var m, ps := MatchedUpTo(sha, inv, n - 1).value, Candidates(sha, inv, n - 1);
      CandidatesProve(sha, inv, n - 1, ps[0]);
      SolveKind(sha, inv, n - 1, ps[0]);
      assert MatchedUpTo(sha, inv, n).value == m + [ps[0]];
      assert forall k :: 0 <= k < |m| ==> (m + [ps[0]])[k] == m[k];
      assert (m + [ps[0]])[|m|] == ps[0];
    }
  }

  lemma SolveKind(sha: Hash, inv: Inv, i: nat, p: Proof)
    requires Proves(sha, inv, i, p)
    ensures p.body.kind.ChallengeSolve? <==> AsksGrading(inv, i)
  {
  }

  ghost predicate AllQuestionsProved(sha: Hash, inv: Inv)
  {
    inv.requirements.Some? && inv.facts != [] && forall i :: 0 <= i < |inv.facts| ==> Proved(sha, inv, i)
  }

  /** The two flags after a change of the reasoning state say exactly that every question is proved,
      and that moreover one of them asked for independent grading. */
  lemma FlagsExactly(sha: Hash, inv: Inv, fits: bool)
    ensures Recorded(sha, inv, fits).Some? <==>
              && fits && (inv.requirements.Some? ==> |inv.requirements.value| == |inv.facts|)
              && (inv.requirements.Some? ==> forall i :: 0 <= i < |inv.facts| ==> !Disputed(sha, inv, i))
    ensures Recorded(sha, inv, fits).Some? ==>
              var next := Recorded(sha, inv, fits).value;
              && next == inv.(revision := inv.revision + 1, requirementsVerified := next.requirementsVerified, verifiedSolve := next.verifiedSolve)
              && (next.requirementsVerified <==> AllQuestionsProved(sha, inv))
              && (next.verifiedSolve <==> AllQuestionsProved(sha, inv) && exists i :: 0 <= i < |inv.facts| && AsksGrading(inv, i))
  {
    hide MatchedUpTo, Disputed, Proved, AnySolve;
    MatchedExactly(sha, inv, |inv.facts|);
    if AllQuestionsProved(sha, inv) && Matched(sha, inv).Some? { SolvesExactly(sha, inv, |inv.facts|); }
  }

  /** Reasoning records carry earlier revision numbers, so each identifier is fresh. */
  ghost predicate Numbered(inv: Inv) { forall p :: p in inv.proofs ==> p.body.id <= inv.revision }

  lemma StepNumbered(sha: Hash, w: World, op: Operation)
    requires Numbered(w.inv)
    ensures Numbered(Apply(sha, w, op).inv)
  {
    hide Matched, AnySolve, Report, Contradicted, FindProof;
  }

  lemma {:induction false} NewIsFound(ps: seq<Proof>, p: Proof)
    requires forall q :: q in ps ==> q.body.id != p.body.id
    ensures FindProof(ps + [p], p.body.id) == Some(p)
    decreases |ps|
  {
    if ps == [] {
      assert (ps + [p])[0] == p;
    } else {
      assert ps[0] in ps && (ps + [p])[1..] == ps[1..] + [p];
      NewIsFound(ps[1..], p);
    }
  }

  /** Signing a proof of the declared kind for a question and then selecting its answer proves the
      question with that answer. */
  lemma SelectionProves(sha: Hash, inv: Inv, kind: Kind, fact: nat, answer: nat, fits: bool, fits': bool)
    requires Numbered(inv) && inv.requirements.Some? && fact < |inv.requirements.value| && inv.requirements.value[fact] == kind
    requires AddProof(sha, inv, kind, fact, answer, fits).Some?
    requires SelectAnswer(sha, AddProof(sha, inv, kind, fact, answer, fits).value, inv.revision + 1, answer, fits').Some?
    ensures var next := SelectAnswer(sha, AddProof(sha, inv, kind, fact, answer, fits).value, inv.revision + 1, answer, fits').value;
            exists p :: Proves(sha, next, fact, p) && p.body.answer == answer
  {
    hide Matched, AnySolve, Contradicted, FindProof;
    var signed := AddProof(sha, inv, kind, fact, answer, fits).value;
    var next := SelectAnswer(sha, signed, inv.revision + 1, answer, fits').value;
    var p := signed.proofs[|inv.proofs|];
    assert signed.proofs == inv.proofs + [p];
    NewIsFound(inv.proofs, p);
    assert Chooses(next.solutions[|signed.solutions|], p);
    assert p in next.proofs;
    assert Proves(sha, next, fact, p);
  }

  /** Passing the independent grader proves the question with the graded answer. */
  lemma CertificationProves(sha: Hash, inv: Inv, fact: nat, answer: nat, id: nat, graded: bool)
    requires Certify(sha, inv, fact, answer, id, graded).Some?
    ensures graded && AsksGrading(inv, fact)
    ensures exists p :: Proves(sha, Certify(sha, inv, fact, answer, id, graded).value, fact, p) && p.body.answer == answer
  {
    hide Matched, AnySolve;
    var next := Certify(sha, inv, fact, answer, id, graded).value;
    var p := next.verifications[|inv.verifications|];
    assert p in next.verifications;
    assert Proves(sha, next, fact, p);
  }

  /** An answer is selected only while the investigation is open and has room, if an intact stored
      record states it and no other answer to its question was selected. */
  lemma SelectionNeeds(sha: Hash, inv: Inv, id: nat, answer: nat, fits: bool)
    ensures SelectAnswer(sha, inv, id, answer, fits).Some? ==>
              && inv.status.Active? && |inv.solutions| < 16
              && exists p :: p in inv.proofs && p.body.id == id && p.digest == sha(p.body) && p.body.answer == answer
                   && (forall k :: 0 <= k < |inv.solutions| && inv.solutions[k].fact == p.body.fact ==> inv.solutions[k].answer == answer)
  {
    hide Matched, AnySolve, FindProof;
    FoundIn(inv.proofs, id);
  }
}
