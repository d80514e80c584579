/** `verifyAST` of src/parse/parser.ts (lines 1700-1866): the pass after
    parsing that attaches every `aliter` sentence to the `si` before it.
    Each `si` becomes a composed `si` with an empty list of branches; each
    `aliter` is appended, as a branch, to the composed `si` that precedes it
    in its list (skipping the placeholders left by earlier `aliter`s), and
    leaves a placeholder that is removed once the list is done. The pass
    goes into the bodies of `si`, `aliter`, `per`, `dum` and `define`.

    The source rewrites the nodes in place; here every step answers the new
    value, and the list of sentences is threaded through. The functions say
    what the pass computes; the methods run it with the loops of the source
    and are proved to compute the same. */
module Folding {
  import opened Either
  import opened Errors
  import opened Ast

  const MisplacedElse := "'aliter' statement must be placed after 'si' or 'aliter' statement"
  const ElseAfterOtherwise := "cannot place 'aliter' statement after unconditioned 'aliter'"
  const NoPrecedingIf := "no preceding si node found"
  const NotComposed := "Internal error: preceding si node is not composed"

  // ---------------------------------------------------------------------------
  // What the pass computes.

  /** The sentences that are not placeholders, in order. */
  function WithoutEmpty(ss: seq<Sentence>): (r: seq<Sentence>)
    ensures |r| <= |ss|
    ensures forall k :: 0 <= k < |r| ==> !r[k].Empty?
  {
    if ss == [] then []
    else if ss[0].Empty? then WithoutEmpty(ss[1..])
    else [ss[0]] + WithoutEmpty(ss[1..])
  }

  /** A sentence list: its sentences folded one by one, placeholders dropped. */
  function FoldList(l: SentenceList): Either<SentenceList, QError>
    decreases l, 2
  {
    match FoldFrom(l, l.sentences, 0)
    case Ok(ss) => Ok(SentenceList(l.pos, ss))
    case Err(e) => Err(e)
  }

  /** The loop over the sentences of `l` from index `i` on; `done` holds the
      sentences before `i` already folded and those from `i` on as given. */
  function FoldFrom(l: SentenceList, done: seq<Sentence>, i: nat): Either<seq<Sentence>, QError>
    requires i <= |done| == |l.sentences| && done[i..] == l.sentences[i..]
    decreases l, 1, |done| - i
  {
    if i == |done| then Ok(WithoutEmpty(done))
    else
      assert done[i] == l.sentences[i];
      match FoldSentence(done[i], done, i)
      case Err(e) => Err(e)
      case Ok((s, updated)) =>
        assert updated[i := s][i + 1..] == l.sentences[i + 1..] by {
          assert updated[i + 1..] == done[i + 1..];
        }
        FoldFrom(l, updated[i := s], i + 1)
  }

  /** One sentence, the `nth` of the list `done`: what replaces it, and the
      list, in which an `aliter` changes the `si` it is attached to. */
  function FoldSentence(s: Sentence, done: seq<Sentence>, nth: nat): (r: Either<(Sentence, seq<Sentence>), QError>)
    requires nth < |done|
    ensures r.Ok? ==> |r.value.1| == |done| && r.value.1[nth..] == done[nth..]
    ensures r.Ok? ==> forall k :: 0 <= k < nth ==> (r.value.1[k].Empty? <==> done[k].Empty?)
    decreases s, 0
  {
    match s
    case If(pos, condition, body) =>
      (match FoldList(body)
       case Ok(b) => Ok((ComposedIf(pos, condition, b, []), done))
       case Err(e) => Err(e))
    case ComposedIf(pos, condition, body, _) =>
      (match FoldList(body)
       case Ok(b) => Ok((ComposedIf(pos, condition, b, []), done))
       case Err(e) => Err(e))
    case Else(pos, body) => FoldElse(pos, body, done, nth)
    case For(pos, variable, from, to, body) =>
      (match FoldList(body)
       case Ok(b) => Ok((For(pos, variable, from, to, b), done))
       case Err(e) => Err(e))
    case While(pos, condition, body) =>
      (match FoldList(body)
       case Ok(b) => Ok((While(pos, condition, b), done))
       case Err(e) => Err(e))
    case Function(pos, name, param1, param2, body) =>
      (match FoldList(body)
       case Ok(b) => Ok((Function(pos, name, param1, param2, b), done))
       case Err(e) => Err(e))
    case _ => Ok((s, done))
  }

  /** The walk back from the `nth` sentence over placeholders, the `i`-th
      step: the index of the first sentence that is not one, `Some(None)`
      when there is no sentence before the first, `None` when only
      placeholders come before. */
  function Preceding(done: seq<Sentence>, nth: nat, i: nat): (r: Option<Option<nat>>)
    requires 1 <= i && nth <= |done| && (i <= nth || i == 1)
    ensures r == Some(None) <==> nth == 0
    ensures r.Some? && r.value.Some? ==>
      var j := r.value.value;
      j < nth && !done[j].Empty?
      && forall k :: j < k <= nth - i ==> done[k].Empty?
    ensures r.None? ==> forall k :: 0 <= k <= nth - i ==> done[k].Empty?
    decreases nth + 1 - i
  {
    if i > nth then Some(None)
    else if !done[nth - i].Empty? then Some(Some(nth - i))
    else if i + 1 > nth then None
    else Preceding(done, nth, i + 1)
  }

  /** The body of an `aliter`: a block is folded; for `aliter si`, only the
      block of the `si` is, since the composed node built for it is dropped. */
  function FoldElseBody(body: ElseBody): Either<ElseBody, QError>
    decreases body, 0
  {
    match body
    case Otherwise(block) =>
      (match FoldList(block)
       case Ok(b) => Ok(Otherwise(b))
       case Err(e) => Err(e))
    case OrIf(ifPos, condition, branch) =>
      (match FoldList(branch)
       case Ok(b) => Ok(OrIf(ifPos, condition, b))
       case Err(e) => Err(e))
  }

  /** An `aliter` at `pos`, the `nth` sentence of `done`. */
  function FoldElse(pos: Pos, body: ElseBody, done: seq<Sentence>, nth: nat): (r: Either<(Sentence, seq<Sentence>), QError>)
    requires nth < |done|
    ensures r.Ok? ==> r.value.0 == Empty(pos) && |r.value.1| == |done| && r.value.1[nth..] == done[nth..]
    ensures r.Ok? ==> forall k :: 0 <= k < nth ==> (r.value.1[k].Empty? <==> done[k].Empty?)
    decreases body, 1
  {
    match Preceding(done, nth, 1)
    case None => Err(NodeError(pos, InternalError, NoPrecedingIf))
    case Some(None) => Err(NodeError(pos, SyntaxError, MisplacedElse))
    case Some(Some(j)) =>
      var prev := done[j];
      if !prev.If? && !prev.ComposedIf? then Err(NodeError(pos, SyntaxError, MisplacedElse))
      else if prev.If? then Err(NodeError(pos, InternalError, NotComposed))
      else if |prev.elif| > 0 && !prev.elif[|prev.elif| - 1].body.OrIf? then
        Err(NodeError(pos, SyntaxError, ElseAfterOtherwise))
      else match FoldElseBody(body)
        case Err(e) => Err(e)
        case Ok(b) => Ok((Empty(pos), done[j := prev.(elif := prev.elif + [Branch(pos, b)])]))
  }

  /** `verifyAST(program())`: the program's list folded. */
  function FoldProgram(p: Program): Either<Program, QError>
  {
    match FoldList(p.program)
    case Ok(l) => Ok(Program(p.pos, l))
    case Err(e) => Err(e)
  }

  // ---------------------------------------------------------------------------
  // What the pass guarantees.

  /** Every sentence before the `i`-th is a placeholder or already folded. */
  ghost predicate FoldedUpTo(done: seq<Sentence>, i: nat)
    requires i <= |done|
  {
    forall k :: 0 <= k < i ==> done[k].Empty? || FoldedSentence(done[k])
  }

  lemma {:induction false} WithoutEmptyFolded(ss: seq<Sentence>)
    requires FoldedUpTo(ss, |ss|)
    ensures FoldedList(SentenceList(Pos(0, 0, ""), WithoutEmpty(ss)))
    decreases |ss|
  {
    if ss != [] {
      assert FoldedUpTo(ss[1..], |ss[1..]|) by {
        forall k | 0 <= k < |ss[1..]| ensures ss[1..][k].Empty? || FoldedSentence(ss[1..][k]) {
          assert ss[1..][k] == ss[k + 1];
        }
      }
      WithoutEmptyFolded(ss[1..]);
    }
  }

  /** A list the pass accepts comes out in folded shape: no `aliter`, no `si`
      that is not composed and no placeholder is left at any depth. */
  lemma {:induction false} FoldListFolded(l: SentenceList)
    ensures FoldList(l).Ok? ==> FoldedList(FoldList(l).value)
    decreases l, 2
  {
    FoldFromFolded(l, l.sentences, 0);
    if FoldList(l).Ok? {
      var ss := FoldFrom(l, l.sentences, 0).value;
      assert FoldedList(SentenceList(Pos(0, 0, ""), ss));
    }
  }

  lemma {:induction false} FoldFromFolded(l: SentenceList, done: seq<Sentence>, i: nat)
    requires i <= |done| == |l.sentences| && done[i..] == l.sentences[i..]
    requires FoldedUpTo(done, i)
    ensures FoldFrom(l, done, i).Ok? ==> FoldedList(SentenceList(Pos(0, 0, ""), FoldFrom(l, done, i).value))
    decreases l, 1, |done| - i
  {
    if i == |done| {
      WithoutEmptyFolded(done);
    } else {
      assert done[i] == l.sentences[i];
      FoldSentenceFolded(done[i], done, i);
      match FoldSentence(done[i], done, i)
      case Err(_) =>
      case Ok((s, updated)) =>
        assert updated[i := s][i + 1..] == l.sentences[i + 1..] by {
          assert updated[i + 1..] == done[i + 1..];
        }
        FoldFromFolded(l, updated[i := s], i + 1);
    }
  }

  lemma {:induction false} FoldSentenceFolded(s: Sentence, done: seq<Sentence>, nth: nat)
    requires nth < |done| && FoldedUpTo(done, nth)
    ensures var r := FoldSentence(s, done, nth);
      r.Ok? ==> (r.value.0.Empty? || FoldedSentence(r.value.0)) && FoldedUpTo(r.value.1, nth)
    decreases s, 0
  {
    match s
    case If(_, _, body) => FoldListFolded(body);
    case ComposedIf(_, _, body, _) => FoldListFolded(body);
    case Else(pos, body) => FoldElseFolded(pos, body, done, nth);
    case For(_, _, _, _, body) => FoldListFolded(body);
    case While(_, _, body) => FoldListFolded(body);
    case Function(_, _, _, _, body) => FoldListFolded(body);
    case _ =>
  }

  lemma {:induction false} FoldElseBodyFolded(pos: Pos, body: ElseBody)
    ensures FoldElseBody(body).Ok? ==> FoldedBranch(Branch(pos, FoldElseBody(body).value))
    decreases body, 0
  {
    match body
    case Otherwise(block) => FoldListFolded(block);
    case OrIf(_, _, branch) => FoldListFolded(branch);
  }

  lemma {:induction false} FoldElseFolded(pos: Pos, body: ElseBody, done: seq<Sentence>, nth: nat)
    requires nth < |done| && FoldedUpTo(done, nth)
    ensures var r := FoldElse(pos, body, done, nth);
      r.Ok? ==> FoldedUpTo(r.value.1, nth)
    decreases body, 1
  {
    FoldElseBodyFolded(pos, body);
    var r := FoldElse(pos, body, done, nth);
    if r.Ok? {
      var j := Preceding(done, nth, 1).value.value;
      var prev := done[j];
      var b := FoldElseBody(body).value;
      var node := prev.(elif := prev.elif + [Branch(pos, b)]);
      assert FoldedSentence(prev);
      assert FoldedSentence(node) by {
        forall m | 0 <= m < |node.elif| ensures FoldedBranch(node.elif[m]) {
          if m < |prev.elif| {
            assert node.elif[m] == prev.elif[m];
          }
        }
      }
      assert r.value.1 == done[j := node];
    }
  }

  /** The program the pass accepts is in folded shape. */
  lemma FoldProgramFolded(p: Program)
    ensures FoldProgram(p).Ok? ==> FoldedList(FoldProgram(p).value.program)
  {
    FoldListFolded(p.program);
  }

  /** An `aliter` that opens its list has no `si` to attach to. */
  lemma LeadingElseMisplaced(pos: Pos, e: Pos, body: ElseBody, rest: seq<Sentence>)
    ensures FoldList(SentenceList(pos, [Else(e, body)] + rest)) == Err(NodeError(e, SyntaxError, MisplacedElse))
  {
    var l := SentenceList(pos, [Else(e, body)] + rest);
    assert FoldSentence(l.sentences[0], l.sentences, 0) == Err(NodeError(e, SyntaxError, MisplacedElse));
  }

  /** `si … aliter …`: the `si` is composed, with the `aliter` as its only
      branch, and the `aliter` itself disappears from the list. */
  lemma IfElseComposed(pos: Pos, p: Pos, c: Expr, thenBlock: SentenceList, e: Pos, elseBlock: SentenceList)
    requires FoldList(thenBlock).Ok? && FoldList(elseBlock).Ok?
    ensures FoldList(SentenceList(pos, [Sentence.If(p, c, thenBlock), Sentence.Else(e, Otherwise(elseBlock))]))
         == Ok(SentenceList(pos, [ComposedIf(p, c, FoldList(thenBlock).value, [Branch(e, Otherwise(FoldList(elseBlock).value))])]))
  {
    var l := SentenceList(pos, [Sentence.If(p, c, thenBlock), Sentence.Else(e, Otherwise(elseBlock))]);
    var composed := ComposedIf(p, c, FoldList(thenBlock).value, []);
    var step1 := l.sentences[0 := composed];
    assert FoldFrom(l, l.sentences, 0) == FoldFrom(l, step1, 1);
    var full := composed.(elif := [Branch(e, Otherwise(FoldList(elseBlock).value))]);
    assert Preceding(step1, 1, 1) == Some(Some(0));
    assert FoldElseBody(Otherwise(elseBlock)) == Ok(Otherwise(FoldList(elseBlock).value));
    assert composed.elif + [Branch(e, Otherwise(FoldList(elseBlock).value))] == full.elif;
    assert FoldElse(e, Otherwise(elseBlock), step1, 1) == Ok((Empty(e), step1[0 := full]));
    var step2 := step1[0 := full][1 := Empty(e)];
    assert step2 == [full, Empty(e)];
    assert FoldFrom(l, step1, 1) == FoldFrom(l, step2, 2);
    assert WithoutEmpty(step2) == [full] by {
      assert step2[1..] == [Empty(e)];
    }
  }

  /** `si … aliter … aliter …`: an `aliter` after an unconditioned one is a
      syntax error. */
  lemma ElseAfterOtherwiseRejected(pos: Pos, p: Pos, c: Expr, thenBlock: SentenceList, e: Pos, elseBlock: SentenceList, f: Pos, last: ElseBody)
    requires FoldList(thenBlock).Ok? && FoldList(elseBlock).Ok?
    ensures FoldList(SentenceList(pos, [Sentence.If(p, c, thenBlock), Sentence.Else(e, Otherwise(elseBlock)), Sentence.Else(f, last)]))
         == Err(NodeError(f, SyntaxError, ElseAfterOtherwise))
  {
    var l := SentenceList(pos, [Sentence.If(p, c, thenBlock), Sentence.Else(e, Otherwise(elseBlock)), Sentence.Else(f, last)]);
    var composed := ComposedIf(p, c, FoldList(thenBlock).value, []);
    var step1 := l.sentences[0 := composed];
    assert FoldFrom(l, l.sentences, 0) == FoldFrom(l, step1, 1);
    var full := composed.(elif := [Branch(e, Otherwise(FoldList(elseBlock).value))]);
    assert Preceding(step1, 1, 1) == Some(Some(0));
    assert FoldElseBody(Otherwise(elseBlock)) == Ok(Otherwise(FoldList(elseBlock).value));
    assert composed.elif + [Branch(e, Otherwise(FoldList(elseBlock).value))] == full.elif;
    assert FoldElse(e, Otherwise(elseBlock), step1, 1) == Ok((Empty(e), step1[0 := full]));
    var step2 := step1[0 := full][1 := Empty(e)];
    assert step2 == [full, Empty(e), Sentence.Else(f, last)];
    assert FoldFrom(l, step1, 1) == FoldFrom(l, step2, 2);
    assert Preceding(step2, 2, 1) == Some(Some(0));
    assert FoldElse(f, last, step2, 2) == Err(NodeError(f, SyntaxError, ElseAfterOtherwise));
    assert FoldSentence(step2[2], step2, 2) == Err(NodeError(f, SyntaxError, ElseAfterOtherwise));
    FoldFromStops(l, step2, 2);
  }

  // ---------------------------------------------------------------------------
  // Where each `aliter` goes.

  /** The walk back from the `nth` sentence stops at the nearest sentence
      before it that is not a placeholder. */
  lemma PrecedingFindsNearest(done: seq<Sentence>, nth: nat, j: nat)
    requires j < nth <= |done| && !done[j].Empty?
    requires forall k :: j < k < nth ==> done[k].Empty?
    ensures Preceding(done, nth, 1) == Some(Some(j))
  {
    PrecedingFrom(done, nth, 1, j);
  }

  lemma {:induction false} PrecedingFrom(done: seq<Sentence>, nth: nat, i: nat, j: nat)
    requires j < nth <= |done| && !done[j].Empty? && 1 <= i <= nth - j
    requires forall k :: j < k <= nth - i ==> done[k].Empty?
    ensures Preceding(done, nth, i) == Some(Some(j))
    decreases nth - i
  {
    if nth - i != j {
      PrecedingFrom(done, nth, i + 1, j);
    }
  }

  /** An `aliter` with no sentence before it is misplaced; one with only
      placeholders before it has lost its `si`. */
  lemma FoldElseWithoutIf(pos: Pos, body: ElseBody, done: seq<Sentence>, nth: nat)
    requires nth < |done|
    requires forall k :: 0 <= k < nth ==> done[k].Empty?
    ensures nth == 0 ==> FoldElse(pos, body, done, nth) == Err(NodeError(pos, SyntaxError, MisplacedElse))
    ensures nth > 0 ==> FoldElse(pos, body, done, nth) == Err(NodeError(pos, InternalError, NoPrecedingIf))
  {
  }

  /** An `aliter` whose nearest preceding sentence that is not a placeholder
      is the `j`-th: it is misplaced unless that sentence is a `si`, and
      rejected after an unconditioned `aliter`; otherwise its folded body is
      appended, as a branch, to the composed `si`, nothing else in the list
      changes, and the `aliter` leaves a placeholder. */
  lemma FoldElseAttaches(pos: Pos, body: ElseBody, done: seq<Sentence>, nth: nat, j: nat)
    requires j < nth < |done| && !done[j].Empty?
    requires forall k :: j < k < nth ==> done[k].Empty?
    ensures !done[j].If? && !done[j].ComposedIf? ==>
      FoldElse(pos, body, done, nth) == Err(NodeError(pos, SyntaxError, MisplacedElse))
    ensures done[j].ComposedIf? && |done[j].elif| > 0 && done[j].elif[|done[j].elif| - 1].body.Otherwise? ==>
      FoldElse(pos, body, done, nth) == Err(NodeError(pos, SyntaxError, ElseAfterOtherwise))
    ensures done[j].ComposedIf? && (done[j].elif == [] || done[j].elif[|done[j].elif| - 1].body.OrIf?) ==>
      var r := FoldElse(pos, body, done, nth);
      match FoldElseBody(body)
      case Err(e) => r == Err(e)
      case Ok(b) =>
        r.Ok? && r.value.0 == Empty(pos)
        && r.value.1[j] == done[j].(elif := done[j].elif + [Branch(pos, b)])
        && forall k :: 0 <= k < |done| && k != j ==> r.value.1[k] == done[k]
  {
    PrecedingFindsNearest(done, nth, j);
  }

  /** The branches the `aliter`s `es` become, in order. */
  function Branches(es: seq<Sentence>): (r: seq<Branch>)
    requires forall k :: 0 <= k < |es| ==> es[k].Else? && FoldElseBody(es[k].elseBody).Ok?
    ensures |r| == |es|
    ensures forall k :: 0 <= k < |es| ==> r[k] == Branch(es[k].pos, FoldElseBody(es[k].elseBody).value)
  {
    seq(|es|, k requires 0 <= k < |es| => Branch(es[k].pos, FoldElseBody(es[k].elseBody).value))
  }

  /** `done` once the pass has taken its `i`-th sentence, a `si`, and the `m`
      `aliter`s after it: the `si` composed with their branches in order,
      the `aliter`s left as placeholders, everything else as it was. */
  function Attached(done: seq<Sentence>, i: nat, m: nat): (r: seq<Sentence>)
    requires i + m < |done| && done[i].If? && FoldList(done[i].body).Ok?
    requires forall k :: i < k <= i + m ==> done[k].Else? && FoldElseBody(done[k].elseBody).Ok?
    ensures |r| == |done|
  {
    var s := done[i];
    var es := done[i + 1..i + m + 1];
    assert forall k :: 0 <= k < |es| ==> es[k] == done[i + 1 + k];
    var composed := ComposedIf(s.pos, s.condition, FoldList(s.body).value, Branches(es));
    seq(|done|, k requires 0 <= k < |done| =>
      if k == i then composed else if i < k <= i + m then Empty(done[k].pos) else done[k])
  }

  /** The `aliter`s after a `si` are attached to it one by one, in the order
      they come, as long as each one before the last is conditioned. */
  lemma {:induction false} ElsesAttach(l: SentenceList, done: seq<Sentence>, i: nat, m: nat)
    requires i + m < |done| == |l.sentences| && done[i..] == l.sentences[i..]
    requires done[i].If? && FoldList(done[i].body).Ok?
    requires forall k :: i < k <= i + m ==> done[k].Else? && FoldElseBody(done[k].elseBody).Ok?
    requires forall k :: i < k < i + m ==> done[k].elseBody.OrIf?
    ensures Attached(done, i, m)[i + m + 1..] == l.sentences[i + m + 1..]
    ensures FoldFrom(l, done, i) == FoldFrom(l, Attached(done, i, m), i + m + 1)
    decreases m
  {
    if m == 0 {
      AttachedTail(l, done, i, 0);
      AttachFirst(l, done, i);
    } else {
      ElsesAttach(l, done, i, m - 1);
      AttachMore(l, done, i, m);
    }
  }

  /** One `aliter` more, once the ones before it are attached. */
  lemma AttachMore(l: SentenceList, done: seq<Sentence>, i: nat, m: nat)
    requires 1 <= m && i + m < |done| == |l.sentences| && done[i..] == l.sentences[i..]
    requires done[i].If? && FoldList(done[i].body).Ok?
    requires forall k :: i < k <= i + m ==> done[k].Else? && FoldElseBody(done[k].elseBody).Ok?
    requires forall k :: i < k < i + m ==> done[k].elseBody.OrIf?
    requires Attached(done, i, m - 1)[i + (m - 1) + 1..] == l.sentences[i + (m - 1) + 1..]
    requires FoldFrom(l, done, i) == FoldFrom(l, Attached(done, i, m - 1), i + (m - 1) + 1)
    ensures Attached(done, i, m)[i + m + 1..] == l.sentences[i + m + 1..]
    ensures FoldFrom(l, done, i) == FoldFrom(l, Attached(done, i, m), i + m + 1)
  {
    AttachedTail(l, done, i, m);
    AttachNext(l, done, i, m);
  }

  lemma AttachedTail(l: SentenceList, done: seq<Sentence>, i: nat, m: nat)
    requires i + m < |done| == |l.sentences| && done[i..] == l.sentences[i..]
    requires done[i].If? && FoldList(done[i].body).Ok?
    requires forall k :: i < k <= i + m ==> done[k].Else? && FoldElseBody(done[k].elseBody).Ok?
    ensures Attached(done, i, m)[i + m + 1..] == l.sentences[i + m + 1..]
  {
    var after := Attached(done, i, m);
    assert after[i + m + 1..] == done[i + m + 1..];
    assert done[i + m + 1..] == done[i..][m + 1..];
  }

  /** The `si` itself is composed with no branches. */
  lemma AttachFirst(l: SentenceList, done: seq<Sentence>, i: nat)
    requires i < |done| == |l.sentences| && done[i..] == l.sentences[i..]
    requires done[i].If? && FoldList(done[i].body).Ok?
    ensures Attached(done, i, 0)[i + 1..] == l.sentences[i + 1..]
    ensures FoldFrom(l, done, i) == FoldFrom(l, Attached(done, i, 0), i + 1)
  {
    AttachedTail(l, done, i, 0);
    var s := done[i];
    assert s == l.sentences[i];
    var composed := ComposedIf(s.pos, s.condition, FoldList(s.body).value, []);
    assert FoldSentence(done[i], done, i) == Ok((composed, done));
    assert done[i := composed] == Attached(done, i, 0);
  }

  /** The `m`-th `aliter` is appended to the branches of the first `m - 1`. */
  lemma AttachNext(l: SentenceList, done: seq<Sentence>, i: nat, m: nat)
    requires 1 <= m && i + m < |done| == |l.sentences| && done[i..] == l.sentences[i..]
    requires done[i].If? && FoldList(done[i].body).Ok?
    requires forall k :: i < k <= i + m ==> done[k].Else? && FoldElseBody(done[k].elseBody).Ok?
    requires forall k :: i < k < i + m ==> done[k].elseBody.OrIf?
    requires Attached(done, i, m - 1)[i + m..] == l.sentences[i + m..]
    ensures FoldFrom(l, Attached(done, i, m - 1), i + m) == FoldFrom(l, Attached(done, i, m), i + m + 1)
  {
    var before := Attached(done, i, m - 1);
    var nth := i + m;
    var e := done[nth];
    assert before[nth] == e;
    AttachStep(done, i, m);
    assert FoldSentence(before[nth], before, nth) == FoldElse(e.pos, e.elseBody, before, nth);
  }

  /** The `FoldElse` step of `AttachNext`. */
  lemma AttachStep(done: seq<Sentence>, i: nat, m: nat)
    requires 1 <= m && i + m < |done| && done[i].If? && FoldList(done[i].body).Ok?
    requires forall k :: i < k <= i + m ==> done[k].Else? && FoldElseBody(done[k].elseBody).Ok?
    requires forall k :: i < k < i + m ==> done[k].elseBody.OrIf?
    ensures var e := done[i + m];
      var r := FoldElse(e.pos, e.elseBody, Attached(done, i, m - 1), i + m);
      r.Ok? && r.value.0 == Empty(e.pos) && r.value.1[i + m := Empty(e.pos)] == Attached(done, i, m)
  {
    var before := Attached(done, i, m - 1);
    var nth := i + m;
    var e := done[nth];
    var prev := before[i];
    if m > 1 {
      assert prev.elif[m - 2] == Branch(done[i + m - 1].pos, FoldElseBody(done[i + m - 1].elseBody).value);
      assert done[i + m - 1].elseBody.OrIf?;
    }
    FoldElseAttaches(e.pos, e.elseBody, before, nth, i);
    var b := FoldElseBody(e.elseBody).value;
    var r := FoldElse(e.pos, e.elseBody, before, nth);
    AttachedGrows(done, i, m);
    assert r.value.1 == before[i := prev.(elif := prev.elif + [Branch(e.pos, b)])];
  }

  /** `Attached` one `aliter` further, pointwise. */
  lemma AttachedGrows(done: seq<Sentence>, i: nat, m: nat)
    requires 1 <= m && i + m < |done| && done[i].If? && FoldList(done[i].body).Ok?
    requires forall k :: i < k <= i + m ==> done[k].Else? && FoldElseBody(done[k].elseBody).Ok?
    ensures var before, e := Attached(done, i, m - 1), done[i + m];
      var branch := Branch(e.pos, FoldElseBody(e.elseBody).value);
      before[i := before[i].(elif := before[i].elif + [branch])][i + m := Empty(e.pos)] == Attached(done, i, m)
  {
    var before, e := Attached(done, i, m - 1), done[i + m];
    var branch := Branch(e.pos, FoldElseBody(e.elseBody).value);
    var es0, es1 := done[i + 1..i + m], done[i + 1..i + m + 1];
    assert forall k :: 0 <= k < |es1| ==> es1[k] == done[i + 1 + k];
    assert Branches(es1) == Branches(es0) + [branch];
  }

  lemma {:induction false} WithoutPlaceholders(ss: seq<Sentence>)
    requires forall k :: 0 <= k < |ss| ==> ss[k].Empty?
    ensures WithoutEmpty(ss) == []
    decreases |ss|
  {
    if ss != [] {
      WithoutPlaceholders(ss[1..]);
    }
  }

  /** A list that is a `si` and `aliter`s, each conditioned but perhaps the
      last, folds to one composed `si` whose branches are the `aliter`s in
      the order they were written. */
  lemma IfElsesComposed(pos: Pos, s: Sentence, es: seq<Sentence>)
    requires s.If? && FoldList(s.body).Ok?
    requires forall k :: 0 <= k < |es| ==> es[k].Else? && FoldElseBody(es[k].elseBody).Ok?
    requires forall k :: 0 <= k < |es| - 1 ==> es[k].elseBody.OrIf?
    ensures FoldList(SentenceList(pos, [s] + es))
         == Ok(SentenceList(pos, [ComposedIf(s.pos, s.condition, FoldList(s.body).value, Branches(es))]))
  {
    var l := SentenceList(pos, [s] + es);
    var m := |es|;
    assert forall k :: 0 < k <= m ==> l.sentences[k] == es[k - 1];
    ElsesAttach(l, l.sentences, 0, m);
    var after := Attached(l.sentences, 0, m);
    assert l.sentences[1..m + 1] == es;
    var composed := ComposedIf(s.pos, s.condition, FoldList(s.body).value, Branches(es));
    assert after[0] == composed;
    assert FoldFrom(l, after, m + 1) == Ok(WithoutEmpty(after));
    WithoutPlaceholders(after[1..]);
    assert after == [after[0]] + after[1..];
    assert WithoutEmpty(after) == [composed];
  }

  /** An `aliter` right after a sentence that is not a `si` (nor a placeholder
      nor another `aliter`) is misplaced. */
  lemma ElseAfterPlainMisplaced(l: SentenceList, done: seq<Sentence>, i: nat)
    requires i + 1 < |done| == |l.sentences| && done[i..] == l.sentences[i..]
    requires !done[i].If? && !done[i].ComposedIf? && !done[i].Else? && !done[i].Empty?
    requires done[i + 1].Else?
    ensures FoldSentence(done[i], done, i).Ok? ==>
      FoldFrom(l, done, i) == Err(NodeError(done[i + 1].pos, SyntaxError, MisplacedElse))
  {
    assert done[i] == l.sentences[i];
    if FoldSentence(done[i], done, i).Ok? {
      var (v, updated) := FoldSentence(done[i], done, i).value;
      assert updated == done && !v.If? && !v.ComposedIf? && !v.Empty?;
      var next := done[i := v];
      assert next[i + 1..] == l.sentences[i + 1..] by {
        assert done[i + 1..] == done[i..][1..];
      }
      assert FoldFrom(l, done, i) == FoldFrom(l, next, i + 1);
      ElseAfterPlainStops(l, done, next, i, v);
    }
  }

  /** The step of `ElseAfterPlainMisplaced` once the plain sentence is folded. */
  lemma ElseAfterPlainStops(l: SentenceList, done: seq<Sentence>, next: seq<Sentence>, i: nat, v: Sentence)
    requires i + 1 < |done| == |l.sentences| && done[i + 1].Else?
    requires !v.If? && !v.ComposedIf? && !v.Empty? && next == done[i := v]
    requires next[i + 1..] == l.sentences[i + 1..]
    ensures FoldFrom(l, next, i + 1) == Err(NodeError(done[i + 1].pos, SyntaxError, MisplacedElse))
  {
    var f := next[i + 1];
    FoldElseAttaches(f.pos, f.elseBody, next, i + 1, i);
    assert FoldSentence(f, next, i + 1) == Err(NodeError(f.pos, SyntaxError, MisplacedElse));
    FoldFromStops(l, next, i + 1);
  }

  /** After a `si` and `aliter`s whose last is unconditioned, one more
      `aliter` is rejected. */
  lemma ElseAfterOtherwiseInList(l: SentenceList, done: seq<Sentence>, i: nat, m: nat)
    requires i + m + 1 < |done| == |l.sentences| && done[i..] == l.sentences[i..] && m >= 1
    requires done[i].If? && FoldList(done[i].body).Ok?
    requires forall k :: i < k <= i + m ==> done[k].Else? && FoldElseBody(done[k].elseBody).Ok?
    requires forall k :: i < k < i + m ==> done[k].elseBody.OrIf?
    requires done[i + m].elseBody.Otherwise? && done[i + m + 1].Else?
    ensures FoldFrom(l, done, i) == Err(NodeError(done[i + m + 1].pos, SyntaxError, ElseAfterOtherwise))
  {
    ElsesAttach(l, done, i, m);
    AttachedShape(done, i, m);
    var after := Attached(done, i, m);
    assert after[i].elif[|after[i].elif| - 1].body.Otherwise?;
    ElseAfterUnconditioned(l, after, i, i + m + 1);
    assert after[i + m + 1] == done[i + m + 1];
  }

  /** `Attached` holds the composed `si` at `i`, its last branch from the
      `m`-th `aliter`, and placeholders up to that `aliter`. */
  lemma AttachedShape(done: seq<Sentence>, i: nat, m: nat)
    requires i + m < |done| && done[i].If? && FoldList(done[i].body).Ok?
    requires forall k :: i < k <= i + m ==> done[k].Else? && FoldElseBody(done[k].elseBody).Ok?
    ensures var after := Attached(done, i, m);
      after[i].ComposedIf? && |after[i].elif| == m
      && (m > 0 ==> after[i].elif[m - 1].body.Otherwise? == done[i + m].elseBody.Otherwise?)
      && (forall k :: i < k <= i + m ==> after[k].Empty?)
      && (i + m + 1 < |done| ==> after[i + m + 1] == done[i + m + 1])
  {
    var after := Attached(done, i, m);
    if m > 0 {
      assert after[i].elif[m - 1] == Branch(done[i + m].pos, FoldElseBody(done[i + m].elseBody).value);
    }
  }

  /** An `aliter` whose nearest sentence before it that is not a placeholder
      is a composed `si` ending in an unconditioned branch ends the pass
      with `ElseAfterOtherwise`. */
  lemma ElseAfterUnconditioned(l: SentenceList, after: seq<Sentence>, j: nat, n: nat)
    requires j < n < |after| == |l.sentences| && after[n..] == l.sentences[n..]
    requires after[j].ComposedIf? && |after[j].elif| > 0 && after[j].elif[|after[j].elif| - 1].body.Otherwise?
    requires forall k :: j < k < n ==> after[k].Empty?
    requires after[n].Else?
    ensures FoldFrom(l, after, n) == Err(NodeError(after[n].pos, SyntaxError, ElseAfterOtherwise))
  {
    var f := after[n];
    FoldElseAttaches(f.pos, f.elseBody, after, n, j);
    assert FoldSentence(f, after, n) == FoldElse(f.pos, f.elseBody, after, n);
    FoldFromStops(l, after, n);
  }

  /** A sentence that fails to fold ends the pass with its error. */
  lemma FoldFromStops(l: SentenceList, done: seq<Sentence>, i: nat)
    requires i < |done| == |l.sentences| && done[i..] == l.sentences[i..]
    requires FoldSentence(done[i], done, i).Err?
    ensures FoldFrom(l, done, i) == Err(FoldSentence(done[i], done, i).error)
  {
  }

  // ---------------------------------------------------------------------------
  // The pass as the source runs it.

  /** The `SENTENCE_LIST` case: each sentence folded in turn, the indices of
      the placeholders recorded, and those removed at the end. */
  method VerifyList(l: SentenceList) returns (r: Either<SentenceList, QError>)
    ensures r == FoldList(l)
    decreases l, 2
  {
    var sentences := l.sentences;
    var empties: seq<nat> := [];
    var i := 0;
    while i < |sentences|
      invariant i <= |sentences| == |l.sentences| && sentences[i..] == l.sentences[i..]
      invariant FoldFrom(l, sentences, i) == FoldFrom(l, l.sentences, 0)
      invariant forall j :: 0 <= j < |empties| ==> empties[j] < i
      invariant forall j :: 0 <= j < i ==> (sentences[j].Empty? <==> j in empties)
      decreases |sentences| - i
    {
      assert sentences[i] == l.sentences[i];
      var s := VerifySentence(sentences[i], sentences, i);
      if s.Err? {
        return Err(s.error);
      }
      var (v, updated) := s.value;
      assert FoldSentence(sentences[i], sentences, i) == Ok((v, updated));
      if v.Empty? {
        empties := empties + [i];
      }
      assert updated[i := v][i + 1..] == l.sentences[i + 1..] by {
        assert updated[i + 1..] == sentences[i + 1..];
      }
      sentences := updated[i := v];
      i := i + 1;
    }
    var kept := RemoveEmpty(sentences);
    return Ok(SentenceList(l.pos, kept));
  }

  /** The removal of the recorded placeholders. Exactly the recorded indices
      hold a placeholder, since folding never turns a sentence before the
      current one into one, so removing them keeps the other sentences in
      order. */
  method RemoveEmpty(ss: seq<Sentence>) returns (kept: seq<Sentence>)
    ensures kept == WithoutEmpty(ss)
  {
    kept := [];
    var j := |ss|;
    while j > 0
      invariant 0 <= j <= |ss|
      invariant kept == WithoutEmpty(ss[j..])
      decreases j
    {
      j := j - 1;
      assert ss[j..][1..] == ss[j + 1..];
      if !ss[j].Empty? {
        kept := [ss[j]] + kept;
      }
    }
    assert ss[0..] == ss;
  }

  /** The sentence cases of the `switch`. */
  method VerifySentence(s: Sentence, done: seq<Sentence>, nth: nat) returns (r: Either<(Sentence, seq<Sentence>), QError>)
    requires nth < |done|
    ensures r == FoldSentence(s, done, nth)
    decreases s, 0
  {
    match s
    case If(pos, condition, body) =>
      var b := VerifyList(body);
      if b.Err? {
        return Err(b.error);
      }
      return Ok((ComposedIf(pos, condition, b.value, []), done));
    case ComposedIf(pos, condition, body, _) =>
      var b := VerifyList(body);
      if b.Err? {
        return Err(b.error);
      }
      return Ok((ComposedIf(pos, condition, b.value, []), done));
    case Else(pos, body) =>
      r := VerifyElse(pos, body, done, nth);
    case For(pos, variable, from, to, body) =>
      var b := VerifyList(body);
      if b.Err? {
        return Err(b.error);
      }
      return Ok((For(pos, variable, from, to, b.value), done));
    case While(pos, condition, body) =>
      var b := VerifyList(body);
      if b.Err? {
        return Err(b.error);
      }
      return Ok((While(pos, condition, b.value), done));
    case Function(pos, name, param1, param2, body) =>
      var b := VerifyList(body);
      if b.Err? {
        return Err(b.error);
      }
      return Ok((Function(pos, name, param1, param2, b.value), done));
    case _ =>
      return Ok((s, done));
  }

  /** The `ELSE` case, with its walk back over the placeholders. */
  method VerifyElse(pos: Pos, body: ElseBody, done: seq<Sentence>, nth: nat) returns (r: Either<(Sentence, seq<Sentence>), QError>)
    requires nth < |done|
    ensures r == FoldElse(pos, body, done, nth)
    decreases body, 1
  {
    var i := 1;
    var prev: Option<nat> := if nth >= i then Some(nth - i) else None;
    while prev.Some? && done[prev.value].Empty?
      invariant 1 <= i && (i <= nth || i == 1)
      invariant prev == (if nth >= i then Some(nth - i) else None)
      invariant Preceding(done, nth, i) == Preceding(done, nth, 1)
      decreases nth - i
    {
      i := i + 1;
      if i > nth {
        return Err(NodeError(pos, InternalError, NoPrecedingIf));
      }
      prev := Some(nth - i);
    }
    if prev.None? || (!done[prev.value].If? && !done[prev.value].ComposedIf?) {
      return Err(NodeError(pos, SyntaxError, MisplacedElse));
    }
    var j := prev.value;
    var node := done[j];
    if node.If? {
      return Err(NodeError(pos, InternalError, NotComposed));
    }
    if |node.elif| > 0 && !node.elif[|node.elif| - 1].body.OrIf? {
      return Err(NodeError(pos, SyntaxError, ElseAfterOtherwise));
    }
    var b: Either<ElseBody, QError>;
    match body {
      case Otherwise(block) =>
        var folded := VerifyList(block);
        b := if folded.Ok? then Ok(Otherwise(folded.value)) else Err(folded.error);
      case OrIf(ifPos, condition, branch) =>
        var folded := VerifyList(branch);
        b := if folded.Ok? then Ok(OrIf(ifPos, condition, folded.value)) else Err(folded.error);
    }
    if b.Err? {
      return Err(b.error);
    }
    return Ok((Empty(pos), done[j := node.(elif := node.elif + [Branch(pos, b.value)])]));
  }

  /** The `PROGRAM` case. */
  method VerifyProgram(p: Program) returns (r: Either<Program, QError>)
    ensures r == FoldProgram(p)
  {
    var l := VerifyList(p.program);
    if l.Err? {
      return Err(l.error);
    }
    return Ok(Program(p.pos, l.value));
  }
}
