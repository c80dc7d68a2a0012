/** The flashcard document reader: paragraphs of text are scanned in order for
    "QUESTION:" and "ANSWER:" lines, and (question, answer) cards are emitted.
    Reading the .docx file is not modelled: the paragraphs' texts are the input. */
module CardParser {

  datatype Card = Card(question: string, answer: string)

  /** The characters Python's `str.strip()` removes (those for which `str.isspace()` holds). */
  predicate IsSpace(c: char)
  {
    c == ' ' || '\t' <= c <= '\r' || '\U{1C}' <= c <= '\U{1F}' || c == '\U{85}' || c == '\U{A0}'
    || c == '\U{1680}' || '\U{2000}' <= c <= '\U{200A}' || c == '\U{2028}' || c == '\U{2029}'
    || c == '\U{202F}' || c == '\U{205F}' || c == '\U{3000}'
  }

  function TrimLeft(s: string): string
  {
    if s != [] && IsSpace(s[0]) then TrimLeft(s[1..]) else s
  }

  function TrimRight(s: string): string
  {
    if s != [] && IsSpace(s[|s| - 1]) then TrimRight(s[..|s| - 1]) else s
  }

  /** TrimLeft removes exactly the leading whitespace. */
  lemma {:induction false} TrimLeftSpec(s: string)
    ensures |TrimLeft(s)| <= |s| && TrimLeft(s) == s[|s| - |TrimLeft(s)|..]
    ensures forall k :: 0 <= k < |s| - |TrimLeft(s)| ==> IsSpace(s[k])
    ensures TrimLeft(s) != [] ==> !IsSpace(TrimLeft(s)[0])
  {
    if s != [] && IsSpace(s[0]) {
      var t := s[1..];
      TrimLeftSpec(t);
      var r := TrimLeft(t);
      assert TrimLeft(s) == r;
      assert t[|t| - |r|..] == s[|s| - |r|..];
      forall k | 0 <= k < |s| - |r|
        ensures IsSpace(s[k])
      {
        if k > 0 {
          assert s[k] == t[k - 1];
        }
      }
    }
  }

  /** TrimRight removes exactly the trailing whitespace. */
  lemma {:induction false} TrimRightSpec(s: string)
    ensures |TrimRight(s)| <= |s| && TrimRight(s) == s[..|TrimRight(s)|]
    ensures forall k :: |TrimRight(s)| <= k < |s| ==> IsSpace(s[k])
    ensures TrimRight(s) != [] ==> !IsSpace(TrimRight(s)[|TrimRight(s)| - 1])
  {
    if s != [] && IsSpace(s[|s| - 1]) {
      TrimRightSpec(s[..|s| - 1]);
    }
  }

  /** `r` is the stretch of `s` that starts at position `i`, and everything before
      and after that stretch is whitespace. */
  predicate StrippedAt(s: string, r: string, i: int)
  {
    && 0 <= i <= |s| - |r|
    && r == s[i..i + |r|]
    && (forall k :: 0 <= k < i ==> IsSpace(s[k]))
    && (forall k :: i + |r| <= k < |s| ==> IsSpace(s[k]))
  }

  /** Python's `str.strip()`: the text without leading and trailing whitespace. */
  function Strip(s: string): (r: string)
    ensures r != [] ==> !IsSpace(r[0]) && !IsSpace(r[|r| - 1])
    ensures r == [] <==> forall k :: 0 <= k < |s| ==> IsSpace(s[k])
    ensures exists i :: StrippedAt(s, r, i)
  {
    var l := TrimLeft(s);
    TrimLeftSpec(s);
    var r := TrimRight(l);
    TrimRightSpec(l);
    var i := |s| - |l|;
    assert r == s[i..i + |r|];
    assert forall k :: i + |r| <= k < |s| ==> IsSpace(s[k]) by {
      forall k | i + |r| <= k < |s|
        ensures IsSpace(s[k])
      {
        assert s[k] == l[k - i];
      }
    }
    assert StrippedAt(s, r, i);
    assert r == [] ==> l == [];
    assert r != [] ==> exists k :: 0 <= k < |s| && !IsSpace(s[k]) by {
      if r != [] {
        assert r[0] == s[|s| - |l|];
      }
    }
    r
  }

  const QuestionMarker: string := "QUESTION:"
  const AnswerMarker: string := "ANSWER:"

  /** What one paragraph means to the reader, with the marker's payload stripped. */
  datatype Line = QuestionLine(text: string) | AnswerLine(text: string) | Ignored

  /** Blank paragraphs and paragraphs that start with neither marker are ignored;
      the question marker is tested first. */
  function Classify(para: string): Line
  {
    var t := Strip(para);
    if t == [] then Ignored
    else if QuestionMarker <= t then QuestionLine(Strip(t[|QuestionMarker|..]))
    else if AnswerMarker <= t then AnswerLine(Strip(t[|AnswerMarker|..]))
    else Ignored
  }

  /** The reader's variables: the cards emitted so far and the pending question and
      answer. Python's `None` and the empty string are only ever tested for truth,
      so both are represented by the empty string. */
  datatype ParseState = ParseState(cards: seq<Card>, question: string, answer: string)

  const Start := ParseState([], [], [])

  /** The card the pending pair forms, if both parts are non-empty. */
  function Pending(st: ParseState): seq<Card>
  {
    if st.question != [] && st.answer != [] then [Card(st.question, st.answer)] else []
  }

  /** One iteration of the reading loop, on the classified paragraph. */
  function Step(st: ParseState, line: Line): ParseState
  {
    match line
    case QuestionLine(q) => ParseState(st.cards + Pending(st), q, [])
    case AnswerLine(a) => if st.question != [] then st.(answer := a) else st
    case Ignored => st
  }

  function Run(st: ParseState, lines: seq<Line>): ParseState
    decreases |lines|
  {
    if lines == [] then st else Run(Step(st, lines[0]), lines[1..])
  }

  /** After the last paragraph the pending pair is emitted if it is complete. */
  function Finish(st: ParseState): seq<Card>
  {
    st.cards + Pending(st)
  }

  function Classified(paras: seq<string>): (lines: seq<Line>)
    ensures |lines| == |paras|
  {
    seq(|paras|, i requires 0 <= i < |paras| => Classify(paras[i]))
  }

  /** The cards a document yields. */
  function Parse(paras: seq<string>): seq<Card>
  {
    ParseLines(Classified(paras))
  }

  function ParseLines(lines: seq<Line>): seq<Card>
  {
    Finish(Run(Start, lines))
  }

  lemma {:induction false} RunSnoc(st: ParseState, lines: seq<Line>, l: Line)
    ensures Run(st, lines + [l]) == Step(Run(st, lines), l)
    decreases |lines|
  {
    if lines != [] {
      assert (lines + [l])[1..] == lines[1..] + [l];
      RunSnoc(Step(st, lines[0]), lines[1..], l);
    }
  }

  lemma {:induction false} RunConcat(st: ParseState, a: seq<Line>, b: seq<Line>)
    ensures Run(st, a + b) == Run(Run(st, a), b)
    decreases |a|
  {
    if a != [] {
      assert (a + b)[1..] == a[1..] + b;
      RunConcat(Step(st, a[0]), a[1..], b);
    } else {
      assert a + b == b;
    }
  }

  /** One iteration of the loop body below, stated on the paragraph's text. */
  lemma StepOnText(st: ParseState, p: string)
    ensures var t := Strip(p);
      Step(st, Classify(p)) ==
        if t == [] then st
        else if QuestionMarker <= t then ParseState(st.cards + Pending(st), Strip(t[|QuestionMarker|..]), [])
        else if AnswerMarker <= t && st.question != [] then st.(answer := Strip(t[|AnswerMarker|..]))
        else st
  {
  }

  lemma ClassifiedPrefix(paras: seq<string>, i: nat)
    requires i < |paras|
    ensures Classified(paras[..i + 1]) == Classified(paras[..i]) + [Classify(paras[i])]
  {
  }

  /** The reading loop, as written: strip each paragraph, skip blanks, start a new
      pending question on the question marker (emitting the previous pair if
      complete), record an answer only while a question is pending. */
  method LoadFlashcards(paragraphs: seq<string>) returns (cards: seq<Card>)
    ensures cards == Parse(paragraphs)
  {
    cards := [];
    var question: string := [];
    var answer: string := [];
    for i := 0 to |paragraphs|
      invariant Run(Start, Classified(paragraphs[..i])) == ParseState(cards, question, answer)
    {
      RunSnoc(Start, Classified(paragraphs[..i]), Classify(paragraphs[i]));
      ClassifiedPrefix(paragraphs, i);
      StepOnText(ParseState(cards, question, answer), paragraphs[i]);
      var text := Strip(paragraphs[i]);
      if text == [] {
        continue;
      }
      if QuestionMarker <= text {
        if question != [] && answer != [] {
          cards := cards + [Card(question, answer)];
        }
        question := Strip(text[|QuestionMarker|..]);
        answer := [];
      } else if AnswerMarker <= text && question != [] {
        answer := Strip(text[|AnswerMarker|..]);
      }
    }
    assert paragraphs[..|paragraphs|] == paragraphs;
    if question != [] && answer != [] {
      cards := cards + [Card(question, answer)];
    }
  }

  // ---------------------------------------------------------------------------
  // A second, block-wise description of the same reader.

  /** Position of the first question paragraph, or |ps| if there is none. */
  function NextQuestion(ps: seq<Line>): (n: nat)
    ensures n <= |ps|
    ensures forall k :: 0 <= k < n ==> !ps[k].QuestionLine?
    ensures n < |ps| ==> ps[n].QuestionLine?
  {
    if ps == [] || ps[0].QuestionLine? then 0 else 1 + NextQuestion(ps[1..])
  }

  /** The payload of the last answer paragraph in `ps`, or `d` if there is none. */
  function LastAnswerOr(ps: seq<Line>, d: string): string
  {
    if ps == [] then d
    else match ps[|ps| - 1]
      case AnswerLine(a) => a
      case _ => LastAnswerOr(ps[..|ps| - 1], d)
  }

  /** Where the block opened by the question paragraph `ps[0]` ends: at the next
      question paragraph, or at the end of the document. */
  function BlockEnd(ps: seq<Line>): (e: nat)
    requires ps != []
    ensures 1 <= e <= |ps|
  {
    1 + NextQuestion(ps[1..])
  }

  /** The card a block yields: its question with the last answer of the block, if
      both are non-empty. */
  function BlockCard(ps: seq<Line>): seq<Card>
    requires ps != [] && ps[0].QuestionLine?
  {
    var q := ps[0].text;
    var a := LastAnswerOr(ps[1..BlockEnd(ps)], []);
    if q != [] && a != [] then [Card(q, a)] else []
  }

  /** The cards of a document read block by block: each question paragraph with a
      non-empty payload, paired with the last answer before the next question
      paragraph, gives a card when that answer is non-empty; everything before the
      first question paragraph is irrelevant. */
  function Blocks(ps: seq<Line>): seq<Card>
    decreases |ps|
  {
    if ps == [] then []
    else if ps[0].QuestionLine? then BlockCard(ps) + Blocks(ps[BlockEnd(ps)..])
    else Blocks(ps[1..])
  }

  /** Between two question paragraphs only the last answer counts: a later answer
      paragraph overwrites an earlier one, and nothing is emitted. With no question
      pending, answer paragraphs change nothing. */
  lemma {:induction false} LastAnswerWins(st: ParseState, seg: seq<Line>)
    requires forall k :: 0 <= k < |seg| ==> !seg[k].QuestionLine?
    ensures Run(st, seg) == if st.question != [] then st.(answer := LastAnswerOr(seg, st.answer)) else st
  {
    if seg != [] {
      var init := seg[..|seg| - 1];
      assert seg == init + [seg[|seg| - 1]];
      RunSnoc(st, init, seg[|seg| - 1]);
      LastAnswerWins(st, init);
    }
  }

  /** Reading one whole block from any state: the pending pair is settled and the
      block's own pair becomes pending. */
  lemma ReadBlock(st: ParseState, ps: seq<Line>)
    requires ps != [] && ps[0].QuestionLine?
    ensures var st' := Run(st, ps[..BlockEnd(ps)]);
      st'.cards == Finish(st) && Pending(st') == BlockCard(ps)
  {
    var e := BlockEnd(ps);
    var q := ps[0].text;
    var seg := ps[1..e];
    assert ps[..e] == [ps[0]] + seg;
    assert ([ps[0]] + seg)[1..] == seg;
    var st2 := Step(st, ps[0]);
    assert st2 == ParseState(Finish(st), q, []);
    LastAnswerWins(st2, seg);
  }

  lemma {:induction false} BlocksFrom(st: ParseState, ps: seq<Line>)
    requires ps == [] || ps[0].QuestionLine?
    ensures Finish(Run(st, ps)) == Finish(st) + Blocks(ps)
    decreases |ps|
  {
    if ps != [] {
      var e := BlockEnd(ps);
      var rest := ps[e..];
      var before, card, after := Finish(st), BlockCard(ps), Blocks(rest);
      assert before + card + after == before + (card + after);
      assert ps == ps[..e] + rest;
      RunConcat(st, ps[..e], rest);
      ReadBlock(st, ps);
      var st3 := Run(st, ps[..e]);
      BlocksFrom(st3, rest);
      calc {
        Finish(Run(st, ps));
        Finish(Run(st3, rest));
        Finish(st3) + Blocks(rest);
        before + card + after;
        before + (card + after);
        Finish(st) + Blocks(ps);
      }
    }
  }

  lemma {:induction false} BlocksSkip(ps: seq<Line>)
    ensures Blocks(ps) == Blocks(ps[NextQuestion(ps)..])
  {
    if ps != [] && !ps[0].QuestionLine? {
      BlocksSkip(ps[1..]);
      assert ps[1..][NextQuestion(ps[1..])..] == ps[NextQuestion(ps)..];
    }
  }

  /** The reading loop and the block-wise description agree on every document. */
  lemma ParseIsBlocks(ps: seq<Line>)
    ensures ParseLines(ps) == Blocks(ps)
  {
    var n := NextQuestion(ps);
    var pre, rest := ps[..n], ps[n..];
    assert ps == pre + rest;
    RunConcat(Start, pre, rest);
    LastAnswerWins(Start, pre);
    BlocksFrom(Start, rest);
    BlocksSkip(ps);
  }

  // ---------------------------------------------------------------------------
  // Properties of the cards read.

  lemma {:induction false} BlocksComplete(ps: seq<Line>)
    ensures forall c :: c in Blocks(ps) ==> c.question != [] && c.answer != []
    decreases |ps|
  {
    if ps != [] {
      if ps[0].QuestionLine? {
        BlocksComplete(ps[BlockEnd(ps)..]);
      } else {
        BlocksComplete(ps[1..]);
      }
    }
  }

  /** Every card read has a non-empty question and a non-empty answer. */
  lemma CardsComplete(paras: seq<string>)
    ensures forall c :: c in Parse(paras) ==> c.question != [] && c.answer != []
  {
    ParseIsBlocks(Classified(paras));
    BlocksComplete(Classified(paras));
  }

  /** The payloads of the question paragraphs, in document order. */
  function QuestionTexts(ps: seq<Line>): seq<string>
  {
    if ps == [] then []
    else if ps[0].QuestionLine? then [ps[0].text] + QuestionTexts(ps[1..])
    else QuestionTexts(ps[1..])
  }

  function Questions(cards: seq<Card>): (qs: seq<string>)
    ensures |qs| == |cards| && forall i :: 0 <= i < |cards| ==> qs[i] == cards[i].question
  {
    seq(|cards|, i requires 0 <= i < |cards| => cards[i].question)
  }

  /** `xs` is `ys` with some elements left out, the rest in the same order. */
  predicate IsSubsequence(xs: seq<string>, ys: seq<string>)
  {
    if ys == [] then xs == []
    else (xs != [] && xs[0] == ys[0] && IsSubsequence(xs[1..], ys[1..])) || IsSubsequence(xs, ys[1..])
  }

  lemma {:induction false} SubsequenceLength(xs: seq<string>, ys: seq<string>)
    requires IsSubsequence(xs, ys)
    ensures |xs| <= |ys|
  {
    if ys != [] {
      if xs != [] && xs[0] == ys[0] && IsSubsequence(xs[1..], ys[1..]) {
        SubsequenceLength(xs[1..], ys[1..]);
      } else {
        SubsequenceLength(xs, ys[1..]);
      }
    }
  }

  lemma SubsequenceKeep(x: string, xs: seq<string>, ys: seq<string>)
    requires IsSubsequence(xs, ys)
    ensures IsSubsequence([x] + xs, [x] + ys)
  {
    assert ([x] + xs)[1..] == xs && ([x] + ys)[1..] == ys;
  }

  lemma SubsequenceDrop(xs: seq<string>, y: string, ys: seq<string>)
    requires IsSubsequence(xs, ys)
    ensures IsSubsequence(xs, [y] + ys)
  {
    assert ([y] + ys)[1..] == ys;
  }

  lemma {:induction false} QuestionTextsSkip(ps: seq<Line>)
    ensures QuestionTexts(ps) == QuestionTexts(ps[NextQuestion(ps)..])
  {
    if ps != [] && !ps[0].QuestionLine? {
      QuestionTextsSkip(ps[1..]);
      assert ps[1..][NextQuestion(ps[1..])..] == ps[NextQuestion(ps)..];
    }
  }

  lemma QuestionTextsOfBlock(ps: seq<Line>)
    requires ps != [] && ps[0].QuestionLine?
    ensures QuestionTexts(ps) == [ps[0].text] + QuestionTexts(ps[BlockEnd(ps)..])
  {
    QuestionTextsSkip(ps[1..]);
    assert ps[1..][NextQuestion(ps[1..])..] == ps[BlockEnd(ps)..];
  }

  lemma QuestionsOfBlock(ps: seq<Line>, later: seq<Card>)
    requires ps != [] && ps[0].QuestionLine?
    ensures BlockCard(ps) != [] ==> Questions(BlockCard(ps) + later) == [ps[0].text] + Questions(later)
    ensures BlockCard(ps) == [] ==> Questions(BlockCard(ps) + later) == Questions(later)
  {
    assert BlockCard(ps) == [] ==> BlockCard(ps) + later == later;
  }

  lemma {:induction false} BlocksInQuestionOrder(ps: seq<Line>)
    ensures IsSubsequence(Questions(Blocks(ps)), QuestionTexts(ps))
    decreases |ps|
  {
    if ps != [] {
      if ps[0].QuestionLine? {
        var rest := ps[BlockEnd(ps)..];
        BlocksInQuestionOrder(rest);
        QuestionTextsOfBlock(ps);
        QuestionsOfBlock(ps, Blocks(rest));
        if BlockCard(ps) != [] {
          SubsequenceKeep(ps[0].text, Questions(Blocks(rest)), QuestionTexts(rest));
        } else {
          SubsequenceDrop(Questions(Blocks(rest)), ps[0].text, QuestionTexts(rest));
        }
      } else {
        BlocksInQuestionOrder(ps[1..]);
      }
    }
  }

  /** Cards come out in the order of their question paragraphs, at most one per
      question paragraph: a question that is not followed by a non-empty answer
      before the next question paragraph is dropped. */
  lemma CardsInQuestionOrder(paras: seq<string>)
    ensures IsSubsequence(Questions(Parse(paras)), QuestionTexts(Classified(paras)))
    ensures |Parse(paras)| <= |QuestionTexts(Classified(paras))|
  {
    var ps := Classified(paras);
    ParseIsBlocks(ps);
    BlocksInQuestionOrder(ps);
    SubsequenceLength(Questions(Parse(paras)), QuestionTexts(ps));
  }

  /** Blank paragraphs, paragraphs with neither marker and answers with no pending
      question leave the reader's state as it was. */
  lemma UnusableParagraphsIgnored(st: ParseState, p: string)
    requires || Strip(p) == []
             || (!(QuestionMarker <= Strip(p)) && !(AnswerMarker <= Strip(p)))
             || (!(QuestionMarker <= Strip(p)) && st.question == [])
    ensures Step(st, Classify(p)) == st
  {
  }

  /** A question paragraph always replaces the pending question and clears the
      pending answer; the previous pair is emitted only if it was complete. */
  lemma QuestionResetsPending(st: ParseState, p: string)
    requires Classify(p).QuestionLine?
    ensures Step(st, Classify(p)).answer == [] && Step(st, Classify(p)).question == Classify(p).text
    ensures Step(st, Classify(p)).cards == st.cards + Pending(st)
  {
  }
}
