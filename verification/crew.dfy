/** The answering step of the retrieval-augmented pipeline: the intent of
    the question selects an answering instruction, the retrieved chunks are
    cleaned into a context, the language model is asked, and its answer is
    checked once more before it is returned. A missing context and an
    answer that admits to finding nothing both become one fixed refusal.

    The language model is a parameter: a function from the prompt to an
    answer or an error message. */
module Crew {
  import opened Basics
  import opened Text

  // ---------------------------------------------------------------------
  // Intent
  // ---------------------------------------------------------------------

  const DisadvantagesOnly: string := "List ONLY the disadvantages or negative aspects explicitly mentioned."
  const AdvantagesOnly: string := "List ONLY the advantages or benefits explicitly mentioned."
  const StepsOnly: string := "Explain ONLY the steps explicitly described."
  const CompareOnly: string := "Compare ONLY what is explicitly stated."
  const AnswerOnly: string := "Answer ONLY what is explicitly stated."

  const NegativeWords: seq<string> := ["disadvantage", "drawback", "limitation", "negative"]
  const PositiveWords: seq<string> := ["advantage", "benefit", "merit"]
  const ProcessWords: seq<string> := ["steps", "process", "how to"]
  const CompareWords: seq<string> := ["difference", "compare"]

  /** `any(w in q for w in words)`. */
  predicate MentionsAny(q: string, words: seq<string>) {
    exists i | 0 <= i < |words| :: Contains(q, words[i])
  }

  /** The instructions, most specific first. */
  const Instructions: seq<string> := [DisadvantagesOnly, AdvantagesOnly, StepsOnly, CompareOnly, AnswerOnly]

  /** `detect_intent(query)`: the first keyword group that occurs in the
      lower-cased question picks the instruction. */
  function DetectIntent(query: string): (r: string)
    ensures r in Instructions
    ensures MentionsAny(Lower(query), NegativeWords) ==> r == DisadvantagesOnly
    ensures (!MentionsAny(Lower(query), NegativeWords) && MentionsAny(Lower(query), PositiveWords))
              ==> r == AdvantagesOnly
    ensures (!MentionsAny(Lower(query), NegativeWords) && !MentionsAny(Lower(query), PositiveWords)
             && MentionsAny(Lower(query), ProcessWords)) ==> r == StepsOnly
    ensures (!MentionsAny(Lower(query), NegativeWords) && !MentionsAny(Lower(query), PositiveWords)
             && !MentionsAny(Lower(query), ProcessWords) && MentionsAny(Lower(query), CompareWords))
              ==> r == CompareOnly
    ensures r == AnswerOnly <==>
              !MentionsAny(Lower(query), NegativeWords) && !MentionsAny(Lower(query), PositiveWords)
              && !MentionsAny(Lower(query), ProcessWords) && !MentionsAny(Lower(query), CompareWords)
  {
    var q := Lower(query);
    if MentionsAny(q, NegativeWords) then DisadvantagesOnly
    else if MentionsAny(q, PositiveWords) then AdvantagesOnly
    else if MentionsAny(q, ProcessWords) then StepsOnly
    else if MentionsAny(q, CompareWords) then CompareOnly
    else AnswerOnly
  }

  /** The intent does not depend on letter case. */
  lemma DetectIntentIgnoresCase(query: string)
    ensures DetectIntent(Lower(query)) == DetectIntent(query)
  {
    LowerIdempotent(query);
  }

  /** "disadvantage" also contains "advantage": a question about
      disadvantages matches both of the first two groups, and the order of
      the checks gives it the disadvantages instruction. */
  lemma DisadvantagesBeforeAdvantages(query: string)
    requires Contains(Lower(query), "disadvantage")
    ensures MentionsAny(Lower(query), PositiveWords)
    ensures DetectIntent(query) == DisadvantagesOnly
  {
    assert NegativeWords[0] == "disadvantage";
    assert OccursAt("disadvantage", "advantage", 3);
    ContainsTransitive(Lower(query), "disadvantage", "advantage");
    assert PositiveWords[0] == "advantage";
  }

  /** Position of an instruction in the order of the checks. */
  function Priority(instruction: string): nat {
    if instruction == DisadvantagesOnly then 0
    else if instruction == AdvantagesOnly then 1
    else if instruction == StepsOnly then 2
    else if instruction == CompareOnly then 3
    else 4
  }

  lemma MentionsExtend(q: string, more: string, words: seq<string>)
    requires MentionsAny(q, words)
    ensures MentionsAny(q + more, words)
  {
    var i :| 0 <= i < |words| && Contains(q, words[i]);
    ContainsExtend(q, more, words[i]);
  }

  /** Adding words to a question never moves it to a later, less specific
      instruction. */
  lemma DetectIntentMonotone(query: string, more: string)
    ensures Priority(DetectIntent(query + more)) <= Priority(DetectIntent(query))
  {
    var q := Lower(query);
    LowerAppend(query, more);
    if MentionsAny(q, NegativeWords) {
      MentionsExtend(q, Lower(more), NegativeWords);
    } else if MentionsAny(q, PositiveWords) {
      MentionsExtend(q, Lower(more), PositiveWords);
    } else if MentionsAny(q, ProcessWords) {
      MentionsExtend(q, Lower(more), ProcessWords);
    } else if MentionsAny(q, CompareWords) {
      MentionsExtend(q, Lower(more), CompareWords);
    }
  }

  // ---------------------------------------------------------------------
  // Context cleaning
  // ---------------------------------------------------------------------

  /** An element of `retrieved_chunks`: a dict, which may lack `"text"`, or
      any other value, which is rendered with `str`. */
  datatype Retrieved = DictChunk(text: Option<string>) | OtherChunk(repr: string)

  /** `chunk.get("text", "")` for a dict, `str(chunk)` otherwise. */
  function RawText(c: Retrieved): string {
    match c
    case DictChunk(t) => if t.Some? then t.value else ""
    case OtherChunk(r) => r
  }

  /** A cleaned context entry: non-empty, and stripping leaves it as it is. */
  predicate Clean(t: string) {
    t != [] && Strip(t) == t
  }

  /** Every retrieved text is empty or whitespace. */
  predicate Blank(chunks: seq<Retrieved>) {
    forall i :: 0 <= i < |chunks| ==> AllSpace(RawText(chunks[i]))
  }

  lemma BlankCons(chunks: seq<Retrieved>)
    requires chunks != []
    ensures Blank(chunks) <==> AllSpace(RawText(chunks[0])) && Blank(chunks[1..])
  {
    assert forall i :: 1 <= i < |chunks| ==> chunks[i] == chunks[1..][i - 1];
  }

  /** What one chunk adds to the context: its stripped text, or nothing
      when that text is blank. */
  function Contribution(c: Retrieved): (r: seq<string>)
    ensures |r| <= 1
    ensures r == [] <==> AllSpace(RawText(c))
    ensures r != [] ==> Clean(r[0]) && r[0] == Strip(RawText(c))
  {
    var t := Strip(RawText(c));
    StripIdempotent(RawText(c));
    if t == [] then [] else [t]
  }

  /** The loop building `clean_context`: blank texts are dropped, the
      others are stripped. */
  function CleanContext(chunks: seq<Retrieved>): (r: seq<string>)
    ensures |r| <= |chunks|
    ensures r == [] <==> Blank(chunks)
    decreases |chunks|
  {
    if chunks == [] then []
    else
      BlankCons(chunks);
      Contribution(chunks[0]) + CleanContext(chunks[1..])
  }

  /** Every entry of the cleaned context is clean. */
  lemma {:induction false} CleanContextClean(chunks: seq<Retrieved>)
    ensures forall k :: 0 <= k < |CleanContext(chunks)| ==> Clean(CleanContext(chunks)[k])
    decreases |chunks|
  {
    if chunks != [] {
      CleanContextClean(chunks[1..]);
      var e := Contribution(chunks[0]);
      var rest := CleanContext(chunks[1..]);
      var r := CleanContext(chunks);
      assert r == e + rest;
      forall k | 0 <= k < |r|
        ensures Clean(r[k])
      {
        if k >= |e| {
          assert r[k] == rest[k - |e|];
        }
      }
    }
  }

  /** Cleaning works chunk by chunk. */
  lemma {:induction false} CleanContextAppend(a: seq<Retrieved>, b: seq<Retrieved>)
    ensures CleanContext(a + b) == CleanContext(a) + CleanContext(b)
    decreases |a|
  {
    if a == [] {
      assert a + b == b;
    } else {
      assert (a + b)[0] == a[0];
      assert (a + b)[1..] == a[1..] + b;
      CleanContextAppend(a[1..], b);
      var e := Contribution(a[0]);
      var x, y := CleanContext(a[1..]), CleanContext(b);
      assert CleanContext(a + b) == e + (x + y);
      assert e + (x + y) == (e + x) + y;
    }
  }

  /** A single chunk is cleaned into its contribution; with
      `CleanContextAppend` this fixes the cleaned context of every list:
      the contributions of the chunks, in chunk order. */
  lemma CleanContextOne(c: Retrieved)
    ensures CleanContext([c]) == Contribution(c)
  {
    assert [c][1..] == [];
  }

  /** Every chunk that is not blank contributes its stripped text. */
  lemma {:induction false} CleanContextKeeps(chunks: seq<Retrieved>, i: int)
    requires 0 <= i < |chunks| && !AllSpace(RawText(chunks[i]))
    ensures Strip(RawText(chunks[i])) in CleanContext(chunks)
    decreases |chunks|
  {
    assert CleanContext(chunks) == Contribution(chunks[0]) + CleanContext(chunks[1..]);
    if i > 0 {
      assert chunks[i] == chunks[1..][i - 1];
      CleanContextKeeps(chunks[1..], i - 1);
    }
  }

  /** Every entry is the stripped text of some chunk: nothing is invented. */
  lemma {:induction false} CleanContextFrom(chunks: seq<Retrieved>, t: string)
    requires t in CleanContext(chunks)
    ensures exists i :: 0 <= i < |chunks| && t == Strip(RawText(chunks[i]))
    decreases |chunks|
  {
    var e := Contribution(chunks[0]);
    assert CleanContext(chunks) == e + CleanContext(chunks[1..]);
    if t in e {
      assert t == Strip(RawText(chunks[0]));
    } else {
      CleanContextFrom(chunks[1..], t);
      var i :| 0 <= i < |chunks[1..]| && t == Strip(RawText(chunks[1..][i]));
      assert chunks[1..][i] == chunks[i + 1];
    }
  }

  /** The chunks rendered by `str`, one per text. */
  function AsOther(ts: seq<string>): (cs: seq<Retrieved>)
    ensures |cs| == |ts|
    ensures forall i :: 0 <= i < |ts| ==> cs[i] == OtherChunk(ts[i])
  {
    seq(|ts|, i requires 0 <= i < |ts| => OtherChunk(ts[i]))
  }

  /** Cleaning an already cleaned context changes nothing. */
  lemma {:induction false} CleanContextIdempotent(ts: seq<string>)
    requires forall k :: 0 <= k < |ts| ==> Clean(ts[k])
    ensures CleanContext(AsOther(ts)) == ts
    decreases |ts|
  {
    if ts != [] {
      var cs := AsOther(ts);
      assert CleanContext(cs[1..]) == ts[1..] by {
        assert cs[1..] == AsOther(ts[1..]);
        CleanContextIdempotent(ts[1..]);
      }
      assert Contribution(cs[0]) == [ts[0]] by {
        assert cs[0] == OtherChunk(ts[0]);
        assert Clean(ts[0]);
      }
      assert CleanContext(cs) == Contribution(cs[0]) + CleanContext(cs[1..]);
      assert ts == [ts[0]] + ts[1..];
    }
  }

  // ---------------------------------------------------------------------
  // The answering step
  // ---------------------------------------------------------------------

  /** The fixed refusal, "No relevant information found in the provided
      documents.", written as its opening phrase and the rest. */
  const RefusalOpening: string := "No relevant information"
  const Refusal: string := RefusalOpening + " found in the provided documents."
  const RefusalPhrase: string := "no relevant information"
  const ErrorPrefix: string := "Error generating response: "
  const DefaultSummaryLength: int := 200

  /** The `context` dict: each key may be absent. */
  datatype Request = Request(retrieved: Option<seq<Retrieved>>, summaryLength: Option<int>, query: Option<string>)

  /** What the prompt is built from: the question, the cleaned context
      joined by blank lines, the answering instruction and the word limit. */
  datatype Prompt = Prompt(query: string, context: string, instruction: string, maxWords: int)

  datatype Prepared = Refused | Ready(prompt: Prompt)

  function Get<T>(o: Option<T>, default: T): T {
    if o.Some? then o.value else default
  }

  /** Everything before the model is called: a refusal when nothing usable
      was retrieved, the prompt otherwise. */
  function Prepare(req: Request): (p: Prepared)
    ensures Get(req.retrieved, []) == [] ==> p == Refused
    ensures p == Refused <==> CleanContext(Get(req.retrieved, [])) == []
    ensures p.Ready? ==> p.prompt.context != [] && Strip(p.prompt.context) == p.prompt.context
    ensures p.Ready? ==> p.prompt.context == Join(CleanContext(Get(req.retrieved, [])), "\n\n")
    ensures p.Ready? ==> p.prompt.instruction == DetectIntent(Get(req.query, ""))
    ensures p.Ready? ==> p.prompt.query == Get(req.query, "")
    ensures p.Ready? ==> p.prompt.maxWords == (if req.summaryLength.Some? then req.summaryLength.value else DefaultSummaryLength)
  {
    var chunks := Get(req.retrieved, []);
    if chunks == [] then Refused
    else
      var clean := CleanContext(chunks);
      if clean == [] then Refused
      else
        var context := Join(clean, "\n\n");
        CleanContextClean(chunks);
        JoinClean(clean);
        Ready(Prompt(Get(req.query, ""), context, DetectIntent(Get(req.query, "")),
                     Get(req.summaryLength, DefaultSummaryLength)))
  }

  /** Joining clean entries by blank lines gives a clean text. */
  lemma {:induction false} JoinClean(ts: seq<string>)
    requires ts != []
    requires forall k :: 0 <= k < |ts| ==> Clean(ts[k])
    ensures Clean(Join(ts, "\n\n"))
    decreases |ts|
  {
    if |ts| > 1 {
      JoinClean(ts[1..]);
      var first, rest := ts[0], Join(ts[1..], "\n\n");
      var j := first + "\n\n" + rest;
      assert Join(ts, "\n\n") == j;
      assert Clean(first);
      assert j[0] == first[0];
      assert j[|j| - 1] == rest[|rest| - 1];
      StripKeeps(j);
    }
  }

  /** The post-check on the model's answer: the stripped answer, unless it
      is empty or mentions having no relevant information. */
  function PostCheck(raw: string): (r: string)
    ensures r != []
    ensures r == Refusal || r == Strip(raw)
    ensures Contains(Lower(r), RefusalPhrase) ==> r == Refusal
    ensures Strip(raw) != [] && !Contains(Lower(Strip(raw)), RefusalPhrase) ==> r == Strip(raw)
    ensures Strip(raw) == [] || Contains(Lower(Strip(raw)), RefusalPhrase) ==> r == Refusal
  {
    var summary := Strip(raw);
    if summary == [] || Contains(Lower(summary), RefusalPhrase) then Refusal else summary
  }

  /** The refusal opens with the phrase the post-check looks for. */
  lemma RefusalOpensWithPhrase()
    ensures Lower(RefusalOpening) == RefusalPhrase
  {
  }

  /** The refusal passes the post-check unchanged. */
  lemma RefusalIsStable()
    ensures Strip(Refusal) == Refusal
    ensures Contains(Lower(Refusal), RefusalPhrase)
  {
    RefusalOpensWithPhrase();
    var head := RefusalOpening;
    assert head[0] == 'N';
    assert Refusal[0] == head[0];
    assert Refusal[|Refusal| - 1] == '.';
    StripKeeps(Refusal);
    assert Refusal[..|head|] == head;
    LowerAppend(head, " found in the provided documents.");
    assert Lower(Refusal)[..|head|] == RefusalPhrase;
    assert OccursAt(Lower(Refusal), RefusalPhrase, 0);
  }

  /** Checking an answer twice is checking it once. */
  lemma PostCheckIdempotent(raw: string)
    ensures PostCheck(PostCheck(raw)) == PostCheck(raw)
  {
    var r := PostCheck(raw);
    if r == Refusal {
      RefusalIsStable();
    } else {
      StripIdempotent(raw);
    }
  }

  /** `summarize_chunks_task(context)["summary"]`, with the model as the
      function `llm` from the prompt to an answer or an error message. */
  function Summarize(req: Request, llm: Prompt -> Result<string, string>): (r: string)
    ensures Prepare(req) == Refused ==> r == Refusal
    ensures Prepare(req).Ready? && llm(Prepare(req).prompt).Success? ==>
              r != [] && (r == Refusal || !Contains(Lower(r), RefusalPhrase))
    ensures Prepare(req).Ready? && llm(Prepare(req).prompt).Success? ==>
              var reply := Strip(llm(Prepare(req).prompt).value);
              && (r == Refusal || r == reply)
              && (reply != [] && !Contains(Lower(reply), RefusalPhrase) ==> r == reply)
    ensures Prepare(req).Ready? && llm(Prepare(req).prompt).Failure? ==>
              r == ErrorPrefix + llm(Prepare(req).prompt).error
  {
    match Prepare(req)
    case Refused => Refusal
    case Ready(prompt) =>
      match llm(prompt)
      case Failure(e) => ErrorPrefix + e
      case Success(raw) => PostCheck(raw)
  }
}
