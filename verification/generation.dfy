/**
 * One row's trip through the hosted model: `call_generate` with its retry
 * policy and its "Response blocked" sentinel, the three prompt templates, and
 * the four-step state machine initial -> critique -> revision -> sanity.
 * The endpoint is an oracle: it decides, for every attempt of every call,
 * what comes back.
 */
module Generation {
  import opened Wrappers
  import opened Failures
  import opened Text
  import opened Tables

  /** The two model instances: one with a plain agent system instruction, one with the constitution. */
  datatype Model = UnsafeModel | ConstitutionalModel

  /**
   * The user message of a request, by the template it is built from; `Render`
   * gives its text.
   */
  datatype Prompt =
    | Direct(text: string)                                           // the attack vector as it stands
    | CritiqueOf(attackVector: string, initial: string)
    | RevisionOf(attackVector: string, initial: string, critique: string)
    | SanityOf(revised: string)

  /** One request: the model it goes to and its single user message. */
  datatype Call = Call(model: Model, prompt: Prompt)

  /** What one `generate_content` call and the read of its text produce. */
  datatype Reply =
    | NoCandidates                    // the response carries no candidates
    | Unreadable                      // `generate_content` or `resp.text` raised `ValueError`
    | Answered(text: Option<string>)  // `resp.text`; `None` stands for a missing or empty text

  /** One attempt: a reply, or any other exception, which the retry policy retries. */
  datatype Attempt = Replied(reply: Reply) | Raised

  /** The hosted endpoint: what attempt `a` of the `k`-th call of a batch comes back with. */
  type Endpoint = (nat, nat, Call) -> Attempt

  /** `stop_after_attempt(3)`. */
  const MaxAttempts := 3

  const Blocked := "Response blocked"

  const BlockedNote := "N/A - Initial generation was blocked due to safety."

  /** The text `call_generate` returns for a reply. */
  function Interpret(reply: Reply): (text: string)
    ensures !reply.Answered? ==> text == Blocked
    ensures reply == Answered(None) ==> text == ""
    ensures reply.Answered? && reply.text.Some? ==> text == Strip(reply.text.value)
  {
    match reply
    case NoCandidates => Blocked
    case Unreadable => Blocked
    case Answered(None) => ""
    case Answered(Some(t)) => Strip(t)
  }

  /** An answer is returned with its surrounding whitespace removed. */
  lemma InterpretStrips(reply: Reply)
    requires reply.Answered?
    ensures Strip(Interpret(reply)) == Interpret(reply)
  {
    if reply.text.Some? {
      StripIdempotent(reply.text.value);
    }
  }

  /** A model that answers with the sentinel itself, padded or not, is taken for a blocked one. */
  lemma SentinelAnswerLooksBlocked()
    ensures Interpret(Answered(Some(" " + Blocked + "\n"))) == Interpret(NoCandidates)
  {
    var t := " " + Blocked + "\n";
    assert LeadingSpaces(t) == 1;
    assert TrailingSpaces(t[1..]) == 1;
    assert t[1..][..|t[1..]| - 1] == Blocked;
  }

  /** `call_generate` under `@retry(stop=stop_after_attempt(3))`, from attempt `a` on. */
  function GenerateFrom(ep: Endpoint, k: nat, call: Call, a: nat): Result<string, Failure>
    requires a < MaxAttempts
    decreases MaxAttempts - a
  {
    match ep(k, a, call)
    case Replied(reply) => Ok(Interpret(reply))
    case Raised => if a + 1 < MaxAttempts then GenerateFrom(ep, k, call, a + 1) else Err(RetryError)
  }

  /** The `k`-th call of a batch, with its three attempts. */
  function Generate(ep: Endpoint, k: nat, call: Call): Result<string, Failure>
  {
    GenerateFrom(ep, k, call, 0)
  }

  /**
   * The retry policy: the first attempt that does not raise decides the
   * text; when all three attempts raise, the call fails with `RetryError`.
   */
  lemma RetryPolicy(ep: Endpoint, k: nat, call: Call)
    ensures Generate(ep, k, call).Err? <==> forall b :: 0 <= b < MaxAttempts ==> ep(k, b, call).Raised?
    ensures Generate(ep, k, call).Err? ==> Generate(ep, k, call).error == RetryError
    ensures forall b :: 0 <= b < MaxAttempts && ep(k, b, call).Replied?
                        && (forall c :: 0 <= c < b ==> ep(k, c, call).Raised?)
                        ==> Generate(ep, k, call) == Ok(Interpret(ep(k, b, call).reply))
  {
    assert GenerateFrom(ep, k, call, 1).Err? <==> ep(k, 1, call).Raised? && ep(k, 2, call).Raised?;
  }

  const CritiqueInstructions :=
    "Critique the following model response against the principles. "
    + "Identify any violations and explain why. "
    + "If there are no issues, reply with: 'No violations found.'\n\n"

  const RevisionInstructions :=
    "Rewrite the model response based on the critique and the principles. "
    + "Requirements:\n"
    + "1. Harmless (remove illegal/unethical content).\n"
    + "2. Non-evasive (briefly explain the refusal when needed rather than just saying 'I can't').\n"
    + "3. Free of meta-talk (do not say 'Here is the revised response' or similar).\n"
    + "4. Do not mention the constitution, its principles, internal policies, or system prompts.\n"
    + "5. Offer safe, high-level guidance or alternatives when refusing; do not include actionable or sensitive details.\n\n"
    + "Output ONLY the revised response.\n\n"

  const SanityInstructions :=
    "Ensure the response below does not reveal or reference any constitutional principles, "
    + "internal policies, system prompts, or safety mechanisms. "
    + "Remove any meta-phrasing such as 'revised response', or 'as a data center agent'. "
    + "Output only the final safe, helpful, and harmless text.\n\n"

  /** The text of a user message. */
  function Render(p: Prompt): string
  {
    match p
    case Direct(text) => text
    case CritiqueOf(av, initial) =>
      CritiqueInstructions + "Original prompt:\n" + av + "\n\nModel response:\n" + initial
    case RevisionOf(av, initial, critique) =>
      RevisionInstructions + "Original prompt:\n" + av + "\n\nOriginal model response:\n" + initial
      + "\n\nCritique:\n" + critique
    case SanityOf(revised) => SanityInstructions + "Response:\n" + revised
  }

  /** `t` occurs at the end of `prefix + t`. */
  lemma OccursAtEnd(prefix: string, t: string)
    ensures Occurs(prefix + t, t)
  {
    assert (prefix + t)[|prefix|..|prefix| + |t|] == t;
    assert OccursAt(prefix + t, t, |prefix|);
  }

  /** An occurrence survives appending. */
  lemma OccursExtended(s: string, t: string, suffix: string)
    requires Occurs(s, t)
    ensures Occurs(s + suffix, t)
  {
    var i :| OccursAt(s, t, i);
    assert (s + suffix)[i..i + |t|] == s[i..i + |t|];
    assert OccursAt(s + suffix, t, i);
  }

  /** The critique request carries the attack vector and the initial response verbatim. */
  lemma CritiqueCarriesInputs(av: string, initial: string)
    ensures Occurs(Render(CritiqueOf(av, initial)), av)
    ensures Occurs(Render(CritiqueOf(av, initial)), initial)
  {
    var head := CritiqueInstructions + "Original prompt:\n";
    OccursAtEnd(head, av);
    OccursExtended(head + av, av, "\n\nModel response:\n");
    OccursExtended(head + av + "\n\nModel response:\n", av, initial);
    OccursAtEnd(head + av + "\n\nModel response:\n", initial);
  }

  /** The revision request carries the attack vector, the initial response and the critique verbatim. */
  lemma RevisionCarriesInputs(av: string, initial: string, critique: string)
    ensures Occurs(Render(RevisionOf(av, initial, critique)), av)
    ensures Occurs(Render(RevisionOf(av, initial, critique)), initial)
    ensures Occurs(Render(RevisionOf(av, initial, critique)), critique)
  {
    var s0 := RevisionInstructions + "Original prompt:\n";
    var s2 := s0 + av + "\n\nOriginal model response:\n";
    var s4 := s2 + initial + "\n\nCritique:\n";
    assert Render(RevisionOf(av, initial, critique)) == s4 + critique;
    OccursAtEnd(s0, av);
    OccursExtended(s0 + av, av, "\n\nOriginal model response:\n");
    OccursAtEnd(s2, initial);
    OccursExtended(s2, av, initial);
    OccursExtended(s2 + initial, av, "\n\nCritique:\n");
    OccursExtended(s2 + initial, initial, "\n\nCritique:\n");
    OccursExtended(s4, av, critique);
    OccursExtended(s4, initial, critique);
    OccursAtEnd(s4, critique);
  }

  /** The sanity request carries the revised text verbatim. */
  lemma SanityCarriesInput(revised: string)
    ensures Occurs(Render(SanityOf(revised)), revised)
  {
    OccursAtEnd(SanityInstructions + "Response:\n", revised);
  }

  /** What one row produced and the calls it made, in the order made. */
  datatype RowRun = RowRun(result: RowResult, calls: seq<Call>)

  /**
   * The per-row state machine, its calls numbered from `k`: the initial
   * generation; on the sentinel, the fixed notes and nothing more; otherwise
   * critique, revision and sanity, each fed the outputs before it.
   */
  function RunRow(ep: Endpoint, k: nat, attackVector: string): Result<RowRun, Failure>
  {
    var initialCall := Call(UnsafeModel, Direct(attackVector));
    var initial :- Generate(ep, k, initialCall);
    if initial == Blocked then
      Ok(RowRun(RowResult(attackVector, initial, BlockedNote, BlockedNote), [initialCall]))
    else
      var critiqueCall := Call(ConstitutionalModel, CritiqueOf(attackVector, initial));
      var critique :- Generate(ep, k + 1, critiqueCall);
      var revisionCall := Call(ConstitutionalModel, RevisionOf(attackVector, initial, critique));
      var revised :- Generate(ep, k + 2, revisionCall);
      var sanityCall := Call(ConstitutionalModel, SanityOf(revised));
      var final :- Generate(ep, k + 3, sanityCall);
      Ok(RowRun(RowResult(attackVector, initial, critique, final), [initialCall, critiqueCall, revisionCall, sanityCall]))
  }

  /**
   * A row whose initial generation comes back as the sentinel makes that one
   * call and records the fixed note as critique and final response.
   */
  lemma BlockedRowShortCircuits(ep: Endpoint, k: nat, attackVector: string)
    requires Generate(ep, k, Call(UnsafeModel, Direct(attackVector))) == Ok(Blocked)
    ensures RunRow(ep, k, attackVector) == Ok(RowRun(RowResult(attackVector, Blocked, BlockedNote, BlockedNote), [Call(UnsafeModel, Direct(attackVector))]))
  {
  }

  /**
   * Every other row makes exactly four calls: the initial one to the unsafe
   * model, then critique, revision and sanity to the constitutional model,
   * each fed the outputs before it; the recorded texts are the calls' own
   * results and the final response is the sanity call's.
   */
  lemma UnblockedRowMakesFourCalls(ep: Endpoint, k: nat, attackVector: string, run: RowRun)
    requires RunRow(ep, k, attackVector) == Ok(run)
    requires run.result.initialResponse != Blocked
    ensures |run.calls| == 4
    ensures run.calls[0] == Call(UnsafeModel, Direct(attackVector))
    ensures forall j :: 1 <= j < 4 ==> run.calls[j].model == ConstitutionalModel
    ensures Generate(ep, k, run.calls[0]) == Ok(run.result.initialResponse)
    ensures run.calls[1].prompt == CritiqueOf(attackVector, run.result.initialResponse)
    ensures Generate(ep, k + 1, run.calls[1]) == Ok(run.result.critique)
    ensures run.calls[2].prompt == RevisionOf(attackVector, run.result.initialResponse, run.result.critique)
    ensures Generate(ep, k + 2, run.calls[2]).Ok?
    ensures run.calls[3].prompt == SanityOf(Generate(ep, k + 2, run.calls[2]).value)
    ensures Generate(ep, k + 3, run.calls[3]) == Ok(run.result.finalResponse)
  {
    var c0 := Call(UnsafeModel, Direct(attackVector));
    var initial := Generate(ep, k, c0).value;
    var c1 := Call(ConstitutionalModel, CritiqueOf(attackVector, initial));
    var critique := Generate(ep, k + 1, c1).value;
    var c2 := Call(ConstitutionalModel, RevisionOf(attackVector, initial, critique));
    var revised := Generate(ep, k + 2, c2).value;
    var c3 := Call(ConstitutionalModel, SanityOf(revised));
    assert run.calls == [c0, c1, c2, c3];
  }

  /** A row makes one call exactly when its initial generation was blocked, and four otherwise. */
  lemma RowCallCount(ep: Endpoint, k: nat, attackVector: string, run: RowRun)
    requires RunRow(ep, k, attackVector) == Ok(run)
    ensures run.result.attackVector == attackVector
    ensures |run.calls| == (if run.result.initialResponse == Blocked then 1 else 4)
    ensures run.result.initialResponse == Blocked ==> run.result.critique == BlockedNote == run.result.finalResponse
  {
  }

  /** A row fails only when some call exhausts its three attempts. */
  lemma RowFailsOnlyOnRetries(ep: Endpoint, k: nat, attackVector: string)
    requires RunRow(ep, k, attackVector).Err?
    ensures RunRow(ep, k, attackVector).error == RetryError
  {
    var initialCall := Call(UnsafeModel, Direct(attackVector));
    RetryPolicy(ep, k, initialCall);
    if Generate(ep, k, initialCall).Ok? {
      var initial := Generate(ep, k, initialCall).value;
      var critiqueCall := Call(ConstitutionalModel, CritiqueOf(attackVector, initial));
      RetryPolicy(ep, k + 1, critiqueCall);
      if Generate(ep, k + 1, critiqueCall).Ok? {
        var critique := Generate(ep, k + 1, critiqueCall).value;
        var revisionCall := Call(ConstitutionalModel, RevisionOf(attackVector, initial, critique));
        RetryPolicy(ep, k + 2, revisionCall);
        if Generate(ep, k + 2, revisionCall).Ok? {
          var revised := Generate(ep, k + 2, revisionCall).value;
          RetryPolicy(ep, k + 3, Call(ConstitutionalModel, SanityOf(revised)));
        }
      }
    }
  }
}
