/**
 * The FAQ text parser: line-oriented "Q:" / "A:" text in, an ordered list of
 * question/answer pairs out.
 *
 * The plugin carries the same loop twice: in `gemini_faq_parse_text_to_array`,
 * which first trims the whole text, and inline in the generate-and-cache
 * function, which does not. Both are `ParseLines` applied to the exploded
 * lines; `InlineParserAgrees` shows the extra trim changes nothing.
 *
 * `Parse` is the loop as a fold (`Step` per line, `Finish` after the last
 * one). `Blocks` is an independent description of the same result: cut the
 * meaningful lines into blocks, one per "Q:" line, and make each block a pair.
 */
module FaqParser {
  import opened PhpString

  datatype FaqPair = FaqPair(question: string, answer: string)

  // ---------------------------------------------------------------------------
  // The loop, as a fold over the lines
  // ---------------------------------------------------------------------------

  /** The loop's variables: the question in progress, its answer buffer, the pairs so far. */
  datatype ParserState = ParserState(question: string, answer: string, faqs: seq<FaqPair>)

  const Init := ParserState("", "", [])

  /** The pair pushed for a question in progress; nothing when the question is `empty()`. */
  function Emit(question: string, answer: string): seq<FaqPair> {
    if PhpEmpty(question) then [] else [FaqPair(Trim(question), Trim(answer))]
  }

  /** One iteration of the loop body. */
  function Step(st: ParserState, line: string): ParserState {
    var l := Trim(line);
    if PhpEmpty(l) then st
    else if StartsWith(l, "Q:") then ParserState(l[2..], "", st.faqs + Emit(st.question, st.answer))
    else if StartsWith(l, "A:") then st.(answer := st.answer + l[2..])
    else st.(answer := st.answer + " " + l)
  }

  function Run(st: ParserState, lines: seq<string>): ParserState
    decreases |lines|
  {
    if lines == [] then st else Run(Step(st, lines[0]), lines[1..])
  }

  /** After the loop: the last question in progress is pushed too. */
  function Finish(st: ParserState): seq<FaqPair> {
    st.faqs + Emit(st.question, st.answer)
  }

  function Parse(lines: seq<string>): seq<FaqPair> {
    Finish(Run(Init, lines))
  }

  /** `gemini_faq_parse_text_to_array`: trim the text, explode it on "\n", run the loop. */
  function ParseText(text: string): seq<FaqPair> {
    Parse(Split(Trim(text)))
  }

  /** The inline copy in the generate-and-cache function: no whole-text trim. */
  function ParseInline(text: string): seq<FaqPair> {
    Parse(Split(text))
  }

  /** The parsing loop itself, over the exploded lines. */
  method ParseLines(lines: seq<string>) returns (faqs: seq<FaqPair>)
    ensures faqs == Parse(lines)
    ensures NoNewlines(lines) ==> AllWellFormed(faqs)
  {
    faqs := [];
    var currentQuestion := "";
    var currentAnswer := "";
    for i := 0 to |lines|
      invariant Run(ParserState(currentQuestion, currentAnswer, faqs), lines[i..]) == Run(Init, lines)
    {
      ghost var before := ParserState(currentQuestion, currentAnswer, faqs);
      assert Run(before, lines[i..]) == Run(Step(before, lines[i]), lines[i + 1..]) by {
        assert lines[i..][0] == lines[i];
        assert lines[i..][1..] == lines[i + 1..];
      }
      var line := Trim(lines[i]);
      if PhpEmpty(line) {
        assert Step(before, lines[i]) == before;
        continue;
      }
      if StartsWith(line, "Q:") {
        if !PhpEmpty(currentQuestion) {
          faqs := faqs + [FaqPair(Trim(currentQuestion), Trim(currentAnswer))];
        }
        currentQuestion := line[2..];
        currentAnswer := "";
      } else if StartsWith(line, "A:") {
        currentAnswer := currentAnswer + line[2..];
      } else {
        currentAnswer := currentAnswer + " " + line;
      }
      assert ParserState(currentQuestion, currentAnswer, faqs) == Step(before, lines[i]);
    }
    assert lines[|lines|..] == [];
    if !PhpEmpty(currentQuestion) {
      faqs := faqs + [FaqPair(Trim(currentQuestion), Trim(currentAnswer))];
    }
    if NoNewlines(lines) {
      ParseWellFormed(lines);
    }
  }

  /** `gemini_faq_parse_text_to_array`. */
  method ParseTextToArray(text: string) returns (faqs: seq<FaqPair>)
    ensures faqs == ParseText(text)
    ensures AllWellFormed(faqs)
  {
    faqs := ParseLines(Split(Trim(text)));
  }

  // ---------------------------------------------------------------------------
  // The reference: one block per "Q:" line
  // ---------------------------------------------------------------------------

  /** A pair as every stored pair is: a non-empty trimmed question, a trimmed answer, one line each. */
  predicate WellFormed(p: FaqPair) {
    && p.question != ""
    && IsTrimmed(p.question) && IsTrimmed(p.answer)
    && '\n' !in p.question && '\n' !in p.answer
  }

  predicate AllWellFormed(ps: seq<FaqPair>) {
    forall i :: 0 <= i < |ps| ==> WellFormed(ps[i])
  }

  /** No line contains a newline, as for every result of `Split`. */
  predicate NoNewlines(lines: seq<string>) {
    forall i :: 0 <= i < |lines| ==> '\n' !in lines[i]
  }

  predicate IsQuestionLine(l: string) {
    StartsWith(l, "Q:")
  }

  /** What a non-question line adds to the answer: after "A:" verbatim, otherwise after one space. */
  function Contribution(l: string): string {
    if StartsWith(l, "A:") then l[2..] else " " + l
  }

  function AnswerText(body: seq<string>): string {
    if body == [] then "" else Contribution(body[0]) + AnswerText(body[1..])
  }

  /** The lines the loop acts on: each line trimmed, the `empty()` ones dropped. */
  function Significant(lines: seq<string>): (sig: seq<string>)
    ensures forall i :: 0 <= i < |sig| ==> IsTrimmed(sig[i]) && !PhpEmpty(sig[i])
    ensures |sig| <= |lines|
  {
    if lines == [] then []
    else
      var t := Trim(lines[0]);
      (if PhpEmpty(t) then [] else [t]) + Significant(lines[1..])
  }

  predicate AllSignificant(L: seq<string>) {
    forall i :: 0 <= i < |L| ==> IsTrimmed(L[i]) && !PhpEmpty(L[i])
  }

  /** The length of the run of non-question lines at the front of `L`. */
  function BodyLen(L: seq<string>): (n: nat)
    ensures n <= |L|
    ensures forall i :: 0 <= i < n ==> !IsQuestionLine(L[i])
    ensures n < |L| ==> IsQuestionLine(L[n])
  {
    if L == [] || IsQuestionLine(L[0]) then 0 else 1 + BodyLen(L[1..])
  }

  /** Lines before the first "Q:" line are dropped; each "Q:" line with its body gives at most one pair. */
  function Blocks(L: seq<string>): seq<FaqPair>
    decreases |L|
  {
    if L == [] then []
    else if !IsQuestionLine(L[0]) then Blocks(L[1..])
    else
      var n := BodyLen(L[1..]);
      Emit(L[0][2..], AnswerText(L[1..][..n])) + Blocks(L[1..][n..])
  }

  /** The trimmed question texts of the "Q:" lines whose question is not `empty()`, in order. */
  function QuestionTexts(L: seq<string>): seq<string> {
    if L == [] then []
    else (if IsQuestionLine(L[0]) && !PhpEmpty(L[0][2..]) then [Trim(L[0][2..])] else [])
         + QuestionTexts(L[1..])
  }

  function CountQuestionLines(L: seq<string>): nat {
    if L == [] then 0 else (if IsQuestionLine(L[0]) then 1 else 0) + CountQuestionLines(L[1..])
  }

  function Questions(ps: seq<FaqPair>): seq<string> {
    if ps == [] then [] else [ps[0].question] + Questions(ps[1..])
  }

  // ---------------------------------------------------------------------------
  // The loop computes the reference
  // ---------------------------------------------------------------------------

  lemma {:induction false} RunAppend(st: ParserState, X: seq<string>, Y: seq<string>)
    ensures Run(st, X + Y) == Run(Run(st, X), Y)
    decreases |X|
  {
    if X != [] {
      assert (X + Y)[0] == X[0];
      assert (X + Y)[1..] == X[1..] + Y;
      RunAppend(Step(st, X[0]), X[1..], Y);
    } else {
      assert X + Y == Y;
    }
  }

  /** The loop only ever looks at the trimmed line, and skips the `empty()` ones. */
  lemma StepTrimmed(st: ParserState, line: string)
    ensures Step(st, line) == Step(st, Trim(line))
    ensures PhpEmpty(Trim(line)) ==> Step(st, line) == st
  {
    TrimIdempotent(line);
  }

  lemma {:induction false} RunSignificant(st: ParserState, lines: seq<string>)
    ensures Run(st, lines) == Run(st, Significant(lines))
    decreases |lines|
  {
    if lines != [] {
      var t := Trim(lines[0]);
      var rest := Significant(lines[1..]);
      assert Run(st, lines) == Run(Step(st, lines[0]), lines[1..]);
      StepTrimmed(st, lines[0]);
      RunSignificant(Step(st, lines[0]), lines[1..]);
      if PhpEmpty(t) {
        assert Significant(lines) == rest;
      } else {
        var S := Significant(lines);
        assert S == [t] + rest;
        assert S[0] == t && S[1..] == rest;
        assert Run(st, S) == Run(Step(st, t), rest);
      }
    }
  }

  lemma AnswerTextCons(l: string, B: seq<string>)
    ensures AnswerText([l] + B) == Contribution(l) + AnswerText(B)
  {
    assert ([l] + B)[0] == l;
    assert ([l] + B)[1..] == B;
  }

  /** On a meaningful line the loop either opens a question or extends the answer. */
  lemma StepSignificant(st: ParserState, l: string)
    requires IsTrimmed(l) && !PhpEmpty(l)
    ensures IsQuestionLine(l) ==> Step(st, l) == ParserState(l[2..], "", st.faqs + Emit(st.question, st.answer))
    ensures !IsQuestionLine(l) ==> Step(st, l) == st.(answer := st.answer + Contribution(l))
  {
    TrimOfTrimmed(l);
  }

  /** The loop's result from a state, described block by block (see `RunBlocks`). */
  predicate RunsAsBlocks(q: string, a: string, out: seq<FaqPair>, L: seq<string>) {
    Finish(Run(ParserState(q, a, out), L))
    == out + Emit(q, a + AnswerText(L[..BodyLen(L)])) + Blocks(L[BodyLen(L)..])
  }

  lemma SignificantTail(L: seq<string>)
    requires L != [] && AllSignificant(L)
    ensures AllSignificant(L[1..])
  {
    forall i | 0 <= i < |L[1..]| ensures IsTrimmed(L[1..][i]) && !PhpEmpty(L[1..][i]) {
      assert L[1..][i] == L[i + 1];
    }
  }

  /** The loop over lines that start with a meaningful line: one `Step`, then the rest. */
  lemma RunFirstLine(st: ParserState, L: seq<string>)
    requires L != [] && IsTrimmed(L[0]) && !PhpEmpty(L[0])
    ensures IsQuestionLine(L[0]) ==>
      Run(st, L) == Run(ParserState(L[0][2..], "", st.faqs + Emit(st.question, st.answer)), L[1..])
    ensures !IsQuestionLine(L[0]) ==>
      Run(st, L) == Run(st.(answer := st.answer + Contribution(L[0])), L[1..])
  {
    assert Run(st, L) == Run(Step(st, L[0]), L[1..]);
    StepSignificant(st, L[0]);
  }

  /** At a "Q:" line nothing is added to the answer in progress and a new block starts. */
  lemma BlocksAtQuestionLine(L: seq<string>)
    requires L != [] && IsQuestionLine(L[0])
    ensures AnswerText(L[..BodyLen(L)]) == ""
    ensures var n := BodyLen(L[1..]);
      Blocks(L[BodyLen(L)..]) == Emit(L[0][2..], AnswerText(L[1..][..n])) + Blocks(L[1..][n..])
  {
    assert BodyLen(L) == 0;
    assert L[..0] == [] && L[0..] == L;
  }

  /** A "Q:" line closes the question in progress and opens the next. */
  lemma RunBlocksQuestionLine(q: string, a: string, out: seq<FaqPair>, L: seq<string>)
    requires L != [] && AllSignificant(L) && IsQuestionLine(L[0])
    requires RunsAsBlocks(L[0][2..], "", out + Emit(q, a), L[1..])
    ensures RunsAsBlocks(q, a, out, L)
  {
    var tail := L[1..];
    var n := BodyLen(tail);
    var started, closed, later := Emit(L[0][2..], AnswerText(tail[..n])), Emit(q, a), Blocks(tail[n..]);
    RunFirstLine(ParserState(q, a, out), L);
    BlocksAtQuestionLine(L);
    calc {
      Finish(Run(ParserState(q, a, out), L));
      Finish(Run(ParserState(L[0][2..], "", out + closed), tail));
      { assert "" + AnswerText(tail[..n]) == AnswerText(tail[..n]); }
      (out + closed) + started + later;
      { ConcatAssoc(out + closed, started, later); ConcatAssoc(out, closed, started + later); }
      out + closed + (started + later);
      { assert a + "" == a; }
      out + Emit(q, a + AnswerText(L[..BodyLen(L)])) + Blocks(L[BodyLen(L)..]);
    }
  }

  /** At any other line, the body in progress grows by that line. */
  lemma BodyAtBodyLine(L: seq<string>)
    requires L != [] && !IsQuestionLine(L[0])
    ensures var n := BodyLen(L[1..]);
      && BodyLen(L) == 1 + n
      && L[..BodyLen(L)] == [L[0]] + L[1..][..n]
      && L[BodyLen(L)..] == L[1..][n..]
  {
    var n := BodyLen(L[1..]);
    assert L[..1 + n] == [L[0]] + L[1..][..n] by {
      forall i | 0 <= i < 1 + n ensures L[..1 + n][i] == ([L[0]] + L[1..][..n])[i] {
        if i > 0 { assert L[1..][..n][i - 1] == L[i]; }
      }
    }
  }

  /** Any other meaningful line extends the answer in progress. */
  lemma RunBlocksBodyLine(q: string, a: string, out: seq<FaqPair>, L: seq<string>)
    requires L != [] && AllSignificant(L) && !IsQuestionLine(L[0])
    requires RunsAsBlocks(q, a + Contribution(L[0]), out, L[1..])
    ensures RunsAsBlocks(q, a, out, L)
  {
    var l, tail := L[0], L[1..];
    var n := BodyLen(tail);
    var body := tail[..n];
    RunFirstLine(ParserState(q, a, out), L);
    BodyAtBodyLine(L);
    calc {
      Finish(Run(ParserState(q, a, out), L));
      Finish(Run(ParserState(q, a + Contribution(l), out), tail));
      out + Emit(q, a + Contribution(l) + AnswerText(body)) + Blocks(tail[n..]);
      { ConcatAssoc(a, Contribution(l), AnswerText(body)); AnswerTextCons(l, body); }
      out + Emit(q, a + AnswerText([l] + body)) + Blocks(tail[n..]);
      out + Emit(q, a + AnswerText(L[..BodyLen(L)])) + Blocks(L[BodyLen(L)..]);
    }
  }

  /**
   * From any loop state, on meaningful lines: the question in progress takes
   * the lines up to the next "Q:" line as its answer, and the rest are blocks.
   */
  lemma {:induction false} RunBlocks(q: string, a: string, out: seq<FaqPair>, L: seq<string>)
    requires AllSignificant(L)
    ensures RunsAsBlocks(q, a, out, L)
    decreases |L|
  {
    if L == [] {
      assert L[..0] == [] && L[0..] == [];
      assert a + "" == a;
    } else {
      SignificantTail(L);
      if IsQuestionLine(L[0]) {
        RunBlocks(L[0][2..], "", out + Emit(q, a), L[1..]);
        RunBlocksQuestionLine(q, a, out, L);
      } else {
        RunBlocks(q, a + Contribution(L[0]), out, L[1..]);
        RunBlocksBodyLine(q, a, out, L);
      }
    }
  }

  /** Whatever precedes the first "Q:" line is irrelevant to the blocks. */
  lemma {:induction false} BlocksSkipPreamble(L: seq<string>)
    ensures Blocks(L[BodyLen(L)..]) == Blocks(L)
    decreases |L|
  {
    if L != [] && !IsQuestionLine(L[0]) {
      BlocksSkipPreamble(L[1..]);
      assert L[1..][BodyLen(L[1..])..] == L[BodyLen(L)..];
    }
  }

  /** The loop's result is the block-by-block reference on the meaningful lines. */
  lemma ParseIsBlocks(lines: seq<string>)
    ensures Parse(lines) == Blocks(Significant(lines))
  {
    var S := Significant(lines);
    RunSignificant(Init, lines);
    RunBlocks("", "", [], S);
    BlocksSkipPreamble(S);
  }

  // ---------------------------------------------------------------------------
  // What the parser promises
  // ---------------------------------------------------------------------------

  lemma TrimNoNewline(s: string)
    requires '\n' !in s
    ensures '\n' !in Trim(s)
  {
    var lead, tail := TrimParts(s);
    var r := Trim(s);
    forall i | 0 <= i < |r| ensures r[i] != '\n' {
      assert r[i] == s[|lead| + i];
    }
  }

  lemma {:induction false} AnswerTextNoNewline(body: seq<string>)
    requires NoNewlines(body)
    ensures '\n' !in AnswerText(body)
    decreases |body|
  {
    if body != [] {
      NoNewlinesSlice(body, 1);
      AnswerTextNoNewline(body[1..]);
      var l := body[0];
      if StartsWith(l, "A:") {
        assert forall i :: 0 <= i < |l[2..]| ==> l[2..][i] == l[i + 2];
      }
    }
  }

  /** A "Q:" line whose question is not `empty()` yields a non-empty trimmed question. */
  lemma QuestionNonEmpty(l: string)
    requires IsTrimmed(l) && IsQuestionLine(l) && !PhpEmpty(l[2..])
    ensures Trim(l[2..]) != ""
  {
    var q := l[2..];
    assert q[|q| - 1] == l[|l| - 1];
    TrimEmptyIff(q);
  }

  lemma SignificantSuffix(L: seq<string>, k: nat)
    requires k <= |L| && AllSignificant(L)
    ensures AllSignificant(L[k..])
  {
    forall i | 0 <= i < |L[k..]| ensures IsTrimmed(L[k..][i]) && !PhpEmpty(L[k..][i]) {
      assert L[k..][i] == L[k + i];
    }
  }

  lemma NoNewlinesSlice(L: seq<string>, k: nat)
    requires k <= |L| && NoNewlines(L)
    ensures NoNewlines(L[k..]) && NoNewlines(L[..k])
  {
    forall i | 0 <= i < |L[k..]| ensures '\n' !in L[k..][i] {
      assert L[k..][i] == L[k + i];
    }
    forall i | 0 <= i < k ensures '\n' !in L[..k][i] {
      assert L[..k][i] == L[i];
    }
  }

  lemma AllWellFormedAppend(xs: seq<FaqPair>, ys: seq<FaqPair>)
    requires AllWellFormed(xs) && AllWellFormed(ys)
    ensures AllWellFormed(xs + ys)
  {
    forall i | 0 <= i < |xs + ys| ensures WellFormed((xs + ys)[i]) {
      if i >= |xs| { assert (xs + ys)[i] == ys[i - |xs|]; }
    }
  }

  /** The pair a "Q:" line and its body yield, if any, is well formed. */
  lemma EmitWellFormed(l: string, body: seq<string>)
    requires IsTrimmed(l) && IsQuestionLine(l) && '\n' !in l
    requires NoNewlines(body)
    ensures AllWellFormed(Emit(l[2..], AnswerText(body)))
  {
    var q := l[2..];
    if !PhpEmpty(q) {
      var answer := AnswerText(body);
      var p := FaqPair(Trim(q), Trim(answer));
      assert p.question != "" by { QuestionNonEmpty(l); }
      assert '\n' !in p.question by {
        assert '\n' !in q by {
          forall i | 0 <= i < |q| ensures q[i] != '\n' { assert q[i] == l[i + 2]; }
        }
        TrimNoNewline(q);
      }
      assert '\n' !in p.answer by {
        AnswerTextNoNewline(body);
        TrimNoNewline(answer);
      }
      assert Emit(q, answer) == [p];
    }
  }

  lemma {:induction false} BlocksWellFormed(L: seq<string>)
    requires AllSignificant(L) && NoNewlines(L)
    ensures AllWellFormed(Blocks(L))
    decreases |L|
  {
    if L != [] {
      var tail := L[1..];
      SignificantSuffix(L, 1);
      NoNewlinesSlice(L, 1);
      if !IsQuestionLine(L[0]) {
        BlocksWellFormed(tail);
      } else {
        var n := BodyLen(tail);
        SignificantSuffix(tail, n);
        NoNewlinesSlice(tail, n);
        BlocksWellFormed(tail[n..]);
        EmitWellFormed(L[0], tail[..n]);
        AllWellFormedAppend(Emit(L[0][2..], AnswerText(tail[..n])), Blocks(tail[n..]));
      }
    }
  }

  lemma ConcatNoNewlines(X: seq<string>, Y: seq<string>)
    requires NoNewlines(X) && NoNewlines(Y)
    ensures NoNewlines(X + Y)
  {
    forall i | 0 <= i < |X + Y| ensures '\n' !in (X + Y)[i] {
      if i >= |X| { assert (X + Y)[i] == Y[i - |X|]; }
    }
  }

  lemma {:induction false} SignificantNoNewline(lines: seq<string>)
    requires NoNewlines(lines)
    ensures NoNewlines(Significant(lines))
    decreases |lines|
  {
    if lines != [] {
      NoNewlinesSlice(lines, 1);
      SignificantNoNewline(lines[1..]);
      TrimNoNewline(lines[0]);
      var t := Trim(lines[0]);
      ConcatNoNewlines(if PhpEmpty(t) then [] else [t], Significant(lines[1..]));
    }
  }

  /**
   * Every stored pair has a non-empty trimmed question and a trimmed answer,
   * and neither spans lines.
   */
  lemma ParseWellFormed(lines: seq<string>)
    requires NoNewlines(lines)
    ensures AllWellFormed(Parse(lines))
  {
    ParseIsBlocks(lines);
    SignificantNoNewline(lines);
    BlocksWellFormed(Significant(lines));
  }

  lemma {:induction false} QuestionTextsSkipBody(L: seq<string>, n: nat)
    requires n <= BodyLen(L)
    ensures QuestionTexts(L) == QuestionTexts(L[n..])
    decreases n
  {
    if n > 0 {
      assert L != [] && !IsQuestionLine(L[0]);
      assert BodyLen(L) == 1 + BodyLen(L[1..]);
      assert QuestionTexts(L) == [] + QuestionTexts(L[1..]);
      QuestionTextsSkipBody(L[1..], n - 1);
      assert L[1..][n - 1..] == L[n..];
    }
  }

  lemma {:induction false} QuestionsAppend(xs: seq<FaqPair>, ys: seq<FaqPair>)
    ensures Questions(xs + ys) == Questions(xs) + Questions(ys)
    decreases |xs|
  {
    if xs != [] {
      assert (xs + ys)[1..] == xs[1..] + ys;
      QuestionsAppend(xs[1..], ys);
    } else {
      assert xs + ys == ys;
    }
  }

  lemma {:induction false} QuestionTextsBound(L: seq<string>)
    ensures |QuestionTexts(L)| <= CountQuestionLines(L)
    decreases |L|
  {
    if L != [] {
      QuestionTextsBound(L[1..]);
    }
  }

  lemma QuestionsOfEmit(q: string, a: string)
    ensures Questions(Emit(q, a)) == if PhpEmpty(q) then [] else [Trim(q)]
  {
    if !PhpEmpty(q) {
      assert Emit(q, a)[1..] == [];
    }
  }

  lemma {:induction false} BlocksQuestions(L: seq<string>)
    ensures Questions(Blocks(L)) == QuestionTexts(L)
    decreases |L|
  {
    if L != [] {
      var tail := L[1..];
      if !IsQuestionLine(L[0]) {
        BlocksQuestions(tail);
      } else {
        var n := BodyLen(tail);
        var q := L[0][2..];
        BlocksQuestions(tail[n..]);
        QuestionTextsSkipBody(tail, n);
        QuestionsAppend(Emit(q, AnswerText(tail[..n])), Blocks(tail[n..]));
        QuestionsOfEmit(q, AnswerText(tail[..n]));
      }
    }
  }

  /**
   * Pairs come out in the order of their "Q:" lines, one for each "Q:" line
   * whose question is not `empty()` (a bare "Q:" yields none), and never more
   * pairs than "Q:" lines.
   */
  lemma ParseQuestions(lines: seq<string>)
    ensures Questions(Parse(lines)) == QuestionTexts(Significant(lines))
    ensures |Parse(lines)| <= CountQuestionLines(Significant(lines))
  {
    ParseIsBlocks(lines);
    BlocksQuestions(Significant(lines));
    QuestionsLength(Parse(lines));
    QuestionTextsBound(Significant(lines));
  }

  lemma {:induction false} QuestionsLength(ps: seq<FaqPair>)
    ensures |Questions(ps)| == |ps|
    decreases |ps|
  {
    if ps != [] {
      QuestionsLength(ps[1..]);
    }
  }

  /** A blank (or "0") line anywhere is as if it were not there. */
  lemma BlankLineIgnored(X: seq<string>, b: string, Y: seq<string>)
    requires PhpEmpty(Trim(b))
    ensures Parse(X + [b] + Y) == Parse(X + Y)
  {
    RunAppend(Init, X + [b], Y);
    RunAppend(Init, X, [b]);
    RunAppend(Init, X, Y);
    StepTrimmed(Run(Init, X), b);
  }

  lemma {:induction false} RunWithoutQuestionLines(a: string, P: seq<string>)
    requires forall i :: 0 <= i < |P| ==> !IsQuestionLine(Trim(P[i]))
    ensures Run(ParserState("", a, []), P).question == ""
    ensures Run(ParserState("", a, []), P).faqs == []
    decreases |P|
  {
    if P != [] {
      assert forall i :: 0 <= i < |P[1..]| ==> P[1..][i] == P[i + 1];
      var st := Step(ParserState("", a, []), P[0]);
      assert st.question == "" && st.faqs == [];
      RunWithoutQuestionLines(st.answer, P[1..]);
    }
  }

  /** Text before the first "Q:" line never reaches the output, whatever follows. */
  lemma PreambleIgnored(P: seq<string>, Y: seq<string>)
    requires forall i :: 0 <= i < |P| ==> !IsQuestionLine(Trim(P[i]))
    ensures Parse(P + Y) == Parse(Y)
  {
    RunAppend(Init, P, Y);
    var st := Run(Init, P);
    RunWithoutQuestionLines("", P);
    var S := Significant(Y);
    RunSignificant(st, Y);
    RunSignificant(Init, Y);
    RunBlocks("", st.answer, [], S);
    RunBlocks("", "", [], S);
  }

  // ---------------------------------------------------------------------------
  // The two copies of the loop agree
  // ---------------------------------------------------------------------------

  lemma RunCons(st: ParserState, l: string, R: seq<string>)
    ensures Run(st, [l] + R) == Run(Step(st, l), R)
  {
    assert ([l] + R)[0] == l && ([l] + R)[1..] == R;
  }

  lemma RunSnoc(st: ParserState, X: seq<string>, l: string)
    ensures Run(st, X + [l]) == Step(Run(st, X), l)
  {
    RunAppend(st, X, [l]);
    RunCons(Run(st, X), l, []);
    assert [l] + [] == [l];
  }

  /** A leading trim character of the text changes no line the loop acts on. */
  lemma RunSplitDropLeading(st: ParserState, c: char, s: string)
    requires IsTrimChar(c)
    ensures Run(st, Split([c] + s)) == Run(st, Split(s))
  {
    var lines := Split(s);
    SplitCons(c, s);
    if c == '\n' {
      RunCons(st, "", lines);
      StepTrimmed(st, "");
    } else {
      var first := [c] + lines[0];
      calc {
        Run(st, Split([c] + s));
        Run(st, [first] + lines[1..]);
        { RunCons(st, first, lines[1..]); }
        Run(Step(st, first), lines[1..]);
        { TrimDropLeading(c, lines[0]); StepTrimmed(st, first); StepTrimmed(st, lines[0]); }
        Run(Step(st, lines[0]), lines[1..]);
        { RunCons(st, lines[0], lines[1..]); assert [lines[0]] + lines[1..] == lines; }
        Run(st, lines);
      }
    }
  }

  /** A trailing trim character of the text changes no line the loop acts on. */
  lemma RunSplitDropTrailing(st: ParserState, s: string, c: char)
    requires IsTrimChar(c)
    ensures Run(st, Split(s + [c])) == Run(st, Split(s))
  {
    var lines := Split(s);
    var init, last := lines[..|lines| - 1], lines[|lines| - 1];
    if c == '\n' {
      SplitSnocNewline(s);
      assert s + [c] == s + "\n";
      RunSnoc(st, lines, "");
      StepTrimmed(Run(st, lines), "");
    } else {
      SplitSnocChar(s, c);
      assert lines == init + [last];
      RunSnoc(st, init, last + [c]);
      RunSnoc(st, init, last);
      TrimDropTrailing(last, c);
      StepTrimmed(Run(st, init), last + [c]);
      StepTrimmed(Run(st, init), last);
    }
  }

  lemma {:induction false} RunSplitTrimLeft(st: ParserState, s: string)
    ensures Run(st, Split(TrimLeft(s))) == Run(st, Split(s))
    decreases |s|
  {
    if |s| > 0 && IsTrimChar(s[0]) {
      var c, r := s[0], s[1..];
      assert TrimLeft(s) == TrimLeft(r);
      assert [c] + r == s;
      calc {
        Run(st, Split(TrimLeft(s)));
        Run(st, Split(TrimLeft(r)));
        { RunSplitTrimLeft(st, r); }
        Run(st, Split(r));
        { RunSplitDropLeading(st, c, r); }
        Run(st, Split([c] + r));
      }
    }
  }

  lemma {:induction false} RunSplitTrimRight(st: ParserState, s: string)
    ensures Run(st, Split(TrimRight(s))) == Run(st, Split(s))
    decreases |s|
  {
    if |s| > 0 && IsTrimChar(s[|s| - 1]) {
      var p, c := s[..|s| - 1], s[|s| - 1];
      assert TrimRight(s) == TrimRight(p);
      assert p + [c] == s;
      calc {
        Run(st, Split(TrimRight(s)));
        Run(st, Split(TrimRight(p)));
        { RunSplitTrimRight(st, p); }
        Run(st, Split(p));
        { RunSplitDropTrailing(st, p, c); }
        Run(st, Split(p + [c]));
      }
    }
  }

  /**
   * The whole-text trim of `gemini_faq_parse_text_to_array` cannot change
   * the result: the inline copy gives the same pairs for every text.
   */
  lemma InlineParserAgrees(text: string)
    ensures ParseText(text) == ParseInline(text)
  {
    RunSplitTrimRight(Init, TrimLeft(text));
    RunSplitTrimLeft(Init, text);
  }

  // ---------------------------------------------------------------------------
  // Round trip through the "Q: …" / "A: …" form the prompts ask for
  // ---------------------------------------------------------------------------

  /** The pairs written back as "Q: <question>\nA: <answer>\n" blocks. */
  function RenderQA(ps: seq<FaqPair>): string {
    if ps == [] then ""
    else ("Q: " + ps[0].question) + "\n" + (("A: " + ps[0].answer) + "\n" + RenderQA(ps[1..]))
  }

  function QALines(ps: seq<FaqPair>): seq<string> {
    if ps == [] then [] else ["Q: " + ps[0].question, "A: " + ps[0].answer] + QALines(ps[1..])
  }

  /** The "A:" line as the loop sees it after trimming. */
  function AnswerLine(a: string): string {
    if a == "" then "A:" else "A: " + a
  }

  function SignificantQA(ps: seq<FaqPair>): seq<string> {
    if ps == [] then [] else ["Q: " + ps[0].question, AnswerLine(ps[0].answer)] + SignificantQA(ps[1..])
  }

  lemma {:induction false} SplitRenderQA(ps: seq<FaqPair>)
    requires AllWellFormed(ps)
    ensures Split(RenderQA(ps)) == QALines(ps) + [""]
    decreases |ps|
  {
    if ps != [] {
      var p, rest := ps[0], ps[1..];
      var qLine, aLine := "Q: " + p.question, "A: " + p.answer;
      assert '\n' !in qLine && '\n' !in aLine;
      calc {
        Split(RenderQA(ps));
        { SplitLine(qLine, aLine + "\n" + RenderQA(rest)); }
        [qLine] + Split(aLine + "\n" + RenderQA(rest));
        { SplitLine(aLine, RenderQA(rest)); }
        [qLine] + ([aLine] + Split(RenderQA(rest)));
        { SplitRenderQA(rest); }
        [qLine] + ([aLine] + (QALines(rest) + [""]));
        { TwoSingles(qLine, aLine); ConcatAssoc([qLine], [aLine], QALines(rest) + [""]);
          ConcatAssoc([qLine, aLine], QALines(rest), [""]); }
        QALines(ps) + [""];
      }
    }
  }

  lemma {:induction false} SignificantAppend(X: seq<string>, Y: seq<string>)
    ensures Significant(X + Y) == Significant(X) + Significant(Y)
    decreases |X|
  {
    if X == [] {
      assert X + Y == Y;
    } else {
      var h, rest := X[0], X[1..];
      var head := if PhpEmpty(Trim(h)) then [] else [Trim(h)];
      assert X == [h] + rest;
      calc {
        Significant(X + Y);
        { ConcatAssoc([h], rest, Y); }
        Significant([h] + (rest + Y));
        { SignificantCons(h, rest + Y); }
        head + Significant(rest + Y);
        { SignificantAppend(rest, Y); }
        head + (Significant(rest) + Significant(Y));
        { ConcatAssoc(head, Significant(rest), Significant(Y)); }
        head + Significant(rest) + Significant(Y);
        { SignificantCons(h, rest); }
        Significant(X) + Significant(Y);
      }
    }
  }

  lemma TrimAnswerLine(a: string)
    requires IsTrimmed(a)
    ensures Trim("A: " + a) == AnswerLine(a)
  {
    if a == "" {
      assert "A: " + a == [] + "A:" + " ";
      TrimUnique([], "A:", " ");
    } else {
      TrimOfTrimmed("A: " + a);
    }
  }

  lemma SignificantCons(l: string, R: seq<string>)
    ensures Significant([l] + R) == (if PhpEmpty(Trim(l)) then [] else [Trim(l)]) + Significant(R)
  {
    assert ([l] + R)[0] == l && ([l] + R)[1..] == R;
  }

  lemma TwoSingles<T>(x: T, y: T)
    ensures [x] + ([y] + []) == [x, y]
    ensures [x] + [y] == [x, y]
  {
  }

  /** A "Q: " line is never `empty()`; an "A:" line as trimmed is never `empty()` nor a "Q:" line. */
  lemma PairLinesShape(q: string, a: string)
    ensures !PhpEmpty("Q: " + q) && IsQuestionLine("Q: " + q)
    ensures !PhpEmpty(AnswerLine(a)) && !IsQuestionLine(AnswerLine(a))
  {
    var al := AnswerLine(a);
    assert |al| >= 2 && al[0] == 'A';
    assert ("Q: " + q)[..2] == "Q:";
  }

  lemma SignificantOfTwo(x: string, y: string)
    requires IsTrimmed(x) && !PhpEmpty(x) && !PhpEmpty(Trim(y))
    ensures Significant([x, y]) == [x, Trim(y)]
  {
    TrimOfTrimmed(x);
    TwoSingles(x, y);
    TwoSingles(x, Trim(y));
    SignificantCons(x, [y]);
    assert [y] + [] == [y];
    SignificantCons(y, []);
  }

  lemma SignificantOfPairLines(p: FaqPair)
    requires WellFormed(p)
    ensures Significant(["Q: " + p.question, "A: " + p.answer]) == ["Q: " + p.question, AnswerLine(p.answer)]
  {
    PairLinesShape(p.question, p.answer);
    TrimOfTrimmed("Q: " + p.question);
    TrimAnswerLine(p.answer);
    SignificantOfTwo("Q: " + p.question, "A: " + p.answer);
  }

  lemma {:induction false} SignificantOfQALines(ps: seq<FaqPair>)
    requires AllWellFormed(ps)
    ensures Significant(QALines(ps)) == SignificantQA(ps)
    decreases |ps|
  {
    if ps != [] {
      var p := ps[0];
      SignificantOfQALines(ps[1..]);
      SignificantAppend(["Q: " + p.question, "A: " + p.answer], QALines(ps[1..]));
      SignificantOfPairLines(p);
    }
  }

  /** The question a "Q: " line carries, as the loop stores it. */
  lemma QuestionOfLine(q: string)
    requires q != "" && IsTrimmed(q)
    ensures ("Q: " + q)[2..] == " " + q
    ensures !PhpEmpty(" " + q) && Trim(" " + q) == q
  {
    assert ("Q: " + q)[2..] == " " + q;
    TrimUnique(" ", q, "");
    assert " " + q + "" == " " + q;
  }

  /** The answer an "A: " line carries, as the loop stores it. */
  lemma AnswerOfLine(a: string)
    requires IsTrimmed(a)
    ensures Trim(AnswerText([AnswerLine(a)])) == a
  {
    var al: string := AnswerLine(a);
    var single: seq<string> := [al];
    assert single[1..] == [];
    assert AnswerText(single) == Contribution(al) + "";
    if a == "" {
      assert Contribution(al) + "" == "";
    } else {
      assert al[2..] == " " + a;
      assert Contribution(al) + "" == " " + a + "";
      TrimUnique(" ", a, "");
    }
  }

  /** The question line and trimmed answer line of a well-formed pair make up exactly that pair. */
  lemma EmitOfPairLines(p: FaqPair)
    requires WellFormed(p)
    ensures Emit(("Q: " + p.question)[2..], AnswerText([AnswerLine(p.answer)])) == [p]
  {
    QuestionOfLine(p.question);
    AnswerOfLine(p.answer);
  }

  lemma BlockOfPair(p: FaqPair, rest: seq<string>)
    requires WellFormed(p)
    requires rest == [] || IsQuestionLine(rest[0])
    ensures Blocks(["Q: " + p.question, AnswerLine(p.answer)] + rest) == [p] + Blocks(rest)
  {
    var al := AnswerLine(p.answer);
    var L := ["Q: " + p.question, al] + rest;
    var tail := [al] + rest;
    assert L[0] == "Q: " + p.question && L[1..] == tail;
    assert tail[0] == al && tail[1..] == rest;
    PairLinesShape(p.question, p.answer);
    assert BodyLen(tail) == 1;
    assert tail[..1] == [al];
    EmitOfPairLines(p);
  }

  lemma {:induction false} BlocksOfSignificantQA(ps: seq<FaqPair>)
    requires AllWellFormed(ps)
    ensures Blocks(SignificantQA(ps)) == ps
    decreases |ps|
  {
    if ps != [] {
      var rest := SignificantQA(ps[1..]);
      BlocksOfSignificantQA(ps[1..]);
      BlockOfPair(ps[0], rest);
      assert ps == [ps[0]] + ps[1..];
    }
  }

  /**
   * Pairs written back in the "Q: …" / "A: …" form parse to themselves,
   * provided each has a non-empty trimmed question and a trimmed answer on
   * one line.
   */
  lemma ParseRenderRoundTrip(ps: seq<FaqPair>)
    requires AllWellFormed(ps)
    ensures ParseText(RenderQA(ps)) == ps
  {
    InlineParserAgrees(RenderQA(ps));
    SplitRenderQA(ps);
    ParseIsBlocks(QALines(ps) + [""]);
    SignificantAppend(QALines(ps), [""]);
    SignificantOfQALines(ps);
    assert Significant([""]) == [];
    assert SignificantQA(ps) + [] == SignificantQA(ps);
    BlocksOfSignificantQA(ps);
  }

  /** Parsing, writing back and parsing again gives the same pairs, for every text. */
  lemma ParseIdempotent(text: string)
    ensures ParseText(RenderQA(ParseText(text))) == ParseText(text)
  {
    ParseWellFormed(Split(Trim(text)));
    ParseRenderRoundTrip(ParseText(text));
  }

  lemma RenderQACons(p: FaqPair, rest: seq<FaqPair>)
    ensures RenderQA([p] + rest) == ("Q: " + p.question) + "\n" + (("A: " + p.answer) + "\n" + RenderQA(rest))
  {
    assert ([p] + rest)[0] == p && ([p] + rest)[1..] == rest;
  }

  lemma BlockTextAssoc(q: string, a: string, rest: string)
    ensures ("Q: " + q) + "\n" + (("A: " + a) + "\n" + rest) == "Q: " + q + "\n" + "A: " + a + "\n" + rest
  {
    var x, y := "Q: " + q, "A: " + a;
    calc {
      x + "\n" + (y + "\n" + rest);
      { ConcatAssoc(y, "\n", rest); }
      x + "\n" + (y + ("\n" + rest));
      { ConcatAssoc(x + "\n", y, "\n" + rest); }
      x + "\n" + y + ("\n" + rest);
      { ConcatAssoc(x + "\n" + y, "\n", rest); }
      x + "\n" + y + "\n" + rest;
      { ConcatAssoc(x + "\n", "A: ", a); }
      x + "\n" + "A: " + a + "\n" + rest;
    }
  }

  lemma ExampleFirstBlock(rest: string)
    ensures ("Q: " + "What is X?") + "\n" + (("A: " + "X is Y.") + "\n" + rest) == "Q: What is X?\nA: X is Y.\n" + rest
  {
    BlockTextAssoc("What is X?", "X is Y.", rest);
    assert "Q: " + "What is X?" + "\n" + "A: " + "X is Y." + "\n" == "Q: What is X?\nA: X is Y.\n";
  }

  lemma ExampleSecondBlock()
    ensures ("Q: " + "How?") + "\n" + (("A: " + "Like this.") + "\n" + RenderQA([])) == "Q: How?\nA: Like this.\n"
  {
    BlockTextAssoc("How?", "Like this.", "");
    assert "Q: " + "How?" + "\n" + "A: " + "Like this." + "\n" + "" == "Q: How?\nA: Like this.\n";
  }

  lemma ExampleText(first: FaqPair, second: FaqPair)
    requires first == FaqPair("What is X?", "X is Y.") && second == FaqPair("How?", "Like this.")
    ensures RenderQA([first, second]) == "Q: What is X?\nA: X is Y.\nQ: How?\nA: Like this.\n"
  {
    var second' := "Q: How?\nA: Like this.\n";
    calc {
      RenderQA([first, second]);
      { RenderQACons(first, [second]); assert [first] + [second] == [first, second]; }
      ("Q: " + "What is X?") + "\n" + (("A: " + "X is Y.") + "\n" + RenderQA([second]));
      { RenderQACons(second, []); assert [second] + [] == [second]; ExampleSecondBlock(); }
      ("Q: " + "What is X?") + "\n" + (("A: " + "X is Y.") + "\n" + second');
      { ExampleFirstBlock(second'); }
      "Q: What is X?\nA: X is Y.\n" + second';
      "Q: What is X?\nA: X is Y.\nQ: How?\nA: Like this.\n";
    }
  }

  lemma ExampleFirstWellFormed()
    ensures WellFormed(FaqPair("What is X?", "X is Y."))
  {
  }

  lemma ExampleSecondWellFormed()
    ensures WellFormed(FaqPair("How?", "Like this."))
  {
  }

  lemma ExamplePairsWellFormed(first: FaqPair, second: FaqPair)
    requires first == FaqPair("What is X?", "X is Y.") && second == FaqPair("How?", "Like this.")
    ensures AllWellFormed([first, second])
  {
    ExampleFirstWellFormed();
    ExampleSecondWellFormed();
    assert [first, second][0] == first && [first, second][1] == second;
  }

  /** The worked example: two blocks give two pairs, in order, prefixes and spaces removed. */
  lemma TwoPairExample()
    ensures ParseText("Q: What is X?\nA: X is Y.\nQ: How?\nA: Like this.\n")
            == [FaqPair("What is X?", "X is Y."), FaqPair("How?", "Like this.")]
  {
    var first, second := FaqPair("What is X?", "X is Y."), FaqPair("How?", "Like this.");
    ExampleText(first, second);
    ExamplePairsWellFormed(first, second);
    ParseRenderRoundTrip([first, second]);
  }

  lemma SplitThree(x: string, y: string, z: string)
    requires '\n' !in x && '\n' !in y && '\n' !in z
    ensures Split(x + "\n" + y + "\n" + z) == [x, y, z]
  {
    SplitNoNewline(z);
    SplitLine(y, z);
    assert x + "\n" + y + "\n" + z == x + "\n" + (y + "\n" + z);
    SplitLine(x, y + "\n" + z);
    assert [x] + ([y] + [z]) == [x, y, z];
  }

  lemma {:induction false} SignificantOfSignificant(L: seq<string>)
    requires AllSignificant(L)
    ensures Significant(L) == L
    decreases |L|
  {
    if L != [] {
      var h, tail := L[0], L[1..];
      TrimOfTrimmed(h);
      assert !PhpEmpty(h);
      SignificantTail(L);
      calc {
        Significant(L);
        [h] + Significant(tail);
        { SignificantOfSignificant(tail); }
        [h] + tail;
      }
      assert [h] + tail == L;
    }
  }

  /** A "Q:" line followed by two lines that are not: one block. */
  lemma BlocksOfThree(x: string, y: string, z: string)
    requires IsQuestionLine(x) && !IsQuestionLine(y) && !IsQuestionLine(z)
    ensures Blocks([x, y, z]) == Emit(x[2..], Contribution(y) + Contribution(z))
  {
    var L := [x, y, z];
    var tail := [y, z];
    assert L[1..] == tail && tail[1..] == [z] && [z][1..] == [];
    assert BodyLen(tail) == 2;
    assert tail[..2] == tail && tail[2..] == [];
    assert AnswerText([z]) == Contribution(z) + "";
    assert Contribution(y) + (Contribution(z) + "") == Contribution(y) + Contribution(z);
  }

  /**
   * Only the exact prefix "Q:" opens a question. After "Q: <q>", a line
   * "A:<x>" adds <x> with no separator and any other line <l> — "q: …" and
   * "Q : …" included — adds " <l>".
   */
  lemma StrictPrefixes(q: string, x: string, l: string)
    requires q != "" && IsTrimmed(q) && '\n' !in q
    requires '\n' !in x && (x == [] || !IsTrimChar(x[|x| - 1]))
    requires '\n' !in l && IsTrimmed(l) && !PhpEmpty(l)
    requires !StartsWith(l, "Q:") && !StartsWith(l, "A:")
    ensures ParseInline("Q: " + q + "\n" + ("A:" + x) + "\n" + l) == [FaqPair(q, Trim(x + " " + l))]
  {
    var qLine, aLine := "Q: " + q, "A:" + x;
    var lines := [qLine, aLine, l];
    assert '\n' !in qLine && '\n' !in aLine;
    SplitThree(qLine, aLine, l);
    PairLinesShape(q, "");
    assert IsTrimmed(aLine) && !PhpEmpty(aLine) && !IsQuestionLine(aLine) && StartsWith(aLine, "A:") by {
      assert aLine[0] == 'A' && aLine[|aLine| - 1] == (if x == [] then ':' else x[|x| - 1]);
      assert aLine[..2] == "A:";
    }
    assert AllSignificant(lines);
    var answer := Contribution(aLine) + Contribution(l);
    assert answer == x + " " + l by {
      assert aLine[2..] == x;
      ConcatAssoc(x, " ", l);
    }
    QuestionOfLine(q);
    calc {
      ParseInline(qLine + "\n" + aLine + "\n" + l);
      Parse(lines);
      { ParseIsBlocks(lines); SignificantOfSignificant(lines); }
      Blocks(lines);
      { BlocksOfThree(qLine, aLine, l); }
      Emit(qLine[2..], answer);
      [FaqPair(q, Trim(x + " " + l))];
    }
  }
}
