// InputHandler.parse of html/xterm.js as a whole: strings go through the decoder of
// StringToUtf32.dfy to the parser of EscapeParser.dfy.

module TerminalInput {
  import opened Common
  import Utf = StringToUtf32
  import Esc = EscapeParser

  /** What a text of code points does to a parser that takes one code at a time. */
  ghost predicate Does(before: Esc.Config, log: seq<Esc.Event>, text: seq<nat>, after: Esc.Config, more: seq<Esc.Event>)
    requires Esc.Sized(before.params)
  {
    after == Esc.Feed(before, text).0 && more == log + Esc.Feed(before, text).1
  }

  lemma DoesAppend(p: Esc.Config, log: seq<Esc.Event>, a: seq<nat>, q: Esc.Config, mid: seq<Esc.Event>,
                   b: seq<nat>, r: Esc.Config, end: seq<Esc.Event>)
    requires Esc.Sized(p.params) && Esc.Sized(q.params)
    requires Does(p, log, a, q, mid) && Does(q, mid, b, r, end)
    ensures Does(p, log, a + b, r, end)
  {
    Esc.FeedAppend(p, a, b);
    Regroup(log, Esc.Feed(p, a).1, Esc.Feed(q, b).1);
  }

  lemma DoesNothing(p: Esc.Config, log: seq<Esc.Event>)
    requires Esc.Sized(p.params)
    ensures Does(p, log, [], p, log)
  {
    assert log + [] == log;
  }

  lemma {:induction false} JoinedAsCodes(pieces: seq<seq<Utf.CodePoint>>)
    ensures Concat<nat>(pieces) == Concat<Utf.CodePoint>(pieces)
  {
    if |pieces| > 0 {
      JoinedAsCodes(pieces[1..]);
    }
  }

  class Terminal {
    const input: Utf.Input
    const parser: Esc.EscapeSequenceParser

    ghost predicate Valid()
      reads this, input, input.decoder, parser, parser.params
      reads parser.params.params, parser.params.subParams, parser.params.subIdx
    {
      && input.Valid() && parser.Valid()
      && var buffer: object := input.parseBuffer;
      && buffer != parser.params.params && buffer != parser.params.subParams && buffer != parser.params.subIdx
    }

    constructor ()
      ensures Valid() && fresh(input) && fresh(input.decoder) && fresh(input.parseBuffer)
      ensures fresh(parser) && fresh(parser.params)
      ensures fresh(parser.params.params) && fresh(parser.params.subParams) && fresh(parser.params.subIdx)
      ensures input.decoder.Holding() == None
      ensures parser.log == [] && parser.State().state == Esc.GROUND
    {
      input := new Utf.Input();
      parser := new Esc.EscapeSequenceParser();
    }

    /** One string. Nothing is said of a code point that is lost. */
    method Write(data: seq<Utf.Unit>) returns (lost: bool)
      requires Valid()
      modifies input, input.decoder, input.parseBuffer, parser, parser.params
      modifies parser.params.params, parser.params.subParams, parser.params.subIdx
      ensures Valid() && (input.parseBuffer == old(input.parseBuffer) || fresh(input.parseBuffer))
      ensures input.parseBuffer.Length == Utf.BufferFor(old(input.parseBuffer.Length), data)
      ensures lost <==> Utf.Loses(old(input.decoder.Holding()).Some?, data, input.parseBuffer.Length)
      ensures var d := Utf.Decode(old(input.decoder.Holding()), data);
              && input.decoder.Holding() == d.held
              && (!lost && Esc.NoDelInPayload(old(parser.State()), d.out) ==>
                    Does(old(parser.State()), old(parser.log), d.out, parser.State(), parser.log))
    {
      hide Esc.NoDelInPayload, Does, Utf.Decode, Utf.Loses;
      var pieces;
      pieces, lost := input.Parse(data);
      JoinedAsCodes(pieces);
      ParseAll(pieces);
    }

    /** One call of the parser for each piece. */
    method ParseAll(pieces: seq<seq<nat>>)
      requires parser.Valid()
      modifies parser, parser.params, parser.params.params, parser.params.subParams, parser.params.subIdx
      ensures parser.Valid()
      ensures Esc.NoDelInPayload(old(parser.State()), Concat(pieces)) ==>
                Does(old(parser.State()), old(parser.log), Concat(pieces), parser.State(), parser.log)
    {
      hide Esc.Batched, Esc.Feed, Esc.NoDelInPayload;
      ghost var p, log, whole := parser.State(), parser.log, Esc.ParsedInChunks(parser.State(), pieces);
      assert pieces[0..] == pieces;
      var k := 0;
      while k < |pieces|
        invariant 0 <= k <= |pieces| && parser.Valid()
        invariant var rest := Esc.ParsedInChunks(parser.State(), pieces[k..]);
                  rest.0 == whole.0 && parser.log + rest.1 == log + whole.1
      {
        ghost var now, before := parser.State(), parser.log;
        assert pieces[k..][1..] == pieces[k + 1..];
        Regroup(before, Esc.Batched(now, false, pieces[k]).1,
                Esc.ParsedInChunks(Esc.Batched(now, false, pieces[k]).0, pieces[k + 1..]).1);
        parser.Parse(pieces[k]);
        k := k + 1;
      }
      assert parser.log + [] == parser.log;
      if Esc.NoDelInPayload(p, Concat(pieces)) {
        Esc.AnyChunkingIsStepwise(p, pieces);
      }
    }

    /** A list of strings, one write each: if nothing is lost and no DEL comes inside
        a DCS payload, all that matters is the text that they are together. */
    method WriteAll(strings: seq<seq<Utf.Unit>>) returns (lost: bool)
      requires Valid()
      modifies input, input.decoder, input.parseBuffer, parser, parser.params
      modifies parser.params.params, parser.params.subParams, parser.params.subIdx
      ensures Valid() && (input.parseBuffer == old(input.parseBuffer) || fresh(input.parseBuffer))
      ensures var d := Utf.Decode(old(input.decoder.Holding()), Concat(strings));
              && input.decoder.Holding() == d.held
              && (!lost && Esc.NoDelInPayload(old(parser.State()), d.out) ==>
                    Does(old(parser.State()), old(parser.log), d.out, parser.State(), parser.log))
      ensures lost <==> SomeLoss(old(input.decoder.Holding()), strings, old(input.parseBuffer.Length))
    {
      hide Esc.NoDelInPayload, Does, Utf.Decode, Utf.Loses, SomeLoss, Utf.BufferFor;
      lost := false;
      ghost var p, log, held, size := parser.State(), parser.log, input.decoder.Holding(), input.parseBuffer.Length;
      NothingWritten(p, log, held);
      assert Concat<Utf.Unit>(strings[..0]) == [];
      assert strings[0..] == strings;
      var k := 0;
      while k < |strings|
        invariant 0 <= k <= |strings| && Valid()
        invariant input.parseBuffer == old(input.parseBuffer) || fresh(input.parseBuffer)
        invariant var d := Utf.Decode(held, Concat(strings[..k]));
                  && input.decoder.Holding() == d.held
                  && (!lost && Esc.NoDelInPayload(p, d.out) ==> Does(p, log, d.out, parser.State(), parser.log))
        invariant SomeLoss(held, strings, size)
             <==> lost || SomeLoss(input.decoder.Holding(), strings[k..], input.parseBuffer.Length)
      {
        ghost var q, mid, now := parser.State(), parser.log, input.decoder.Holding();
        ghost var text := Concat(strings[..k]);
        WrittenSnoc(p, log, held, text, strings[k], q, mid);
        assert strings[..k + 1] == strings[..k] + [strings[k]];
        ConcatSnoc(strings[..k], strings[k]);
        LossFirst(now, strings[k..], input.parseBuffer.Length);
        assert strings[k..][1..] == strings[k + 1..];
        var over := Write(strings[k]);
        WrittenBoth(p, log, held, text, strings[k], q, mid, parser.State(), parser.log);
        lost := lost || over;
        k := k + 1;
      }
      assert strings[..k] == strings;
      NoMoreLoss(input.decoder.Holding(), strings[k..], input.parseBuffer.Length);
    }
  }

  /** Some write of a list loses a code point, with the buffer it finds. */
  ghost predicate SomeLoss(held: Utf.Held, strings: seq<seq<Utf.Unit>>, size: nat)
    decreases |strings|
  {
    |strings| > 0 &&
    var next := Utf.BufferFor(size, strings[0]);
    Utf.Loses(held.Some?, strings[0], next) || SomeLoss(Utf.Decode(held, strings[0]).held, strings[1..], next)
  }

  lemma LossFirst(held: Utf.Held, strings: seq<seq<Utf.Unit>>, size: nat)
    requires |strings| > 0
    ensures var next := Utf.BufferFor(size, strings[0]);
            SomeLoss(held, strings, size) <==>
              || Utf.Loses(held.Some?, strings[0], next)
              || SomeLoss(Utf.Decode(held, strings[0]).held, strings[1..], next)
  {
  }

  lemma NoMoreLoss(held: Utf.Held, strings: seq<seq<Utf.Unit>>, size: nat)
    ensures |strings| == 0 ==> !SomeLoss(held, strings, size)
  {
  }

  lemma NothingWritten(p: Esc.Config, log: seq<Esc.Event>, held: Utf.Held)
    requires Esc.Sized(p.params)
    ensures Utf.Decode(held, []) == Utf.Decoded([], held)
    ensures Does(p, log, [], p, log)
  {
    DoesNothing(p, log);
  }

  /** What the text so far leaves for the next string. */
  lemma WrittenSnoc(p: Esc.Config, log: seq<Esc.Event>, held: Utf.Held, text: seq<Utf.Unit>, more: seq<Utf.Unit>,
                    q: Esc.Config, mid: seq<Esc.Event>)
    requires Esc.Sized(p.params) && Esc.Sized(q.params)
    ensures var d := Utf.Decode(held, text);
            var e := Utf.Decode(d.held, more);
            && Utf.Decode(held, text + more) == Utf.Decoded(d.out + e.out, e.held)
            && (Esc.NoDelInPayload(p, d.out + e.out) ==> Esc.NoDelInPayload(p, d.out))
            && (Esc.NoDelInPayload(p, d.out + e.out) && Does(p, log, d.out, q, mid) ==> Esc.NoDelInPayload(q, e.out))
  {
    hide Utf.Decode, Esc.NoDelInPayload;
    Utf.DecodeAppend(held, text, more);
    var d := Utf.Decode(held, text);
    var e := Utf.Decode(d.held, more);
    if Esc.NoDelInPayload(p, d.out + e.out) {
      Esc.NoDelSplits(p, d.out, e.out);
    }
  }

  lemma WrittenBoth(p: Esc.Config, log: seq<Esc.Event>, held: Utf.Held, text: seq<Utf.Unit>, more: seq<Utf.Unit>,
                    q: Esc.Config, mid: seq<Esc.Event>, r: Esc.Config, end: seq<Esc.Event>)
    requires Esc.Sized(p.params) && Esc.Sized(q.params)
    ensures var d := Utf.Decode(held, text);
            var e := Utf.Decode(d.held, more);
            Does(p, log, d.out, q, mid) && Does(q, mid, e.out, r, end) ==> Does(p, log, d.out + e.out, r, end)
  {
    hide Utf.Decode, Does;
    var d := Utf.Decode(held, text);
    var e := Utf.Decode(d.held, more);
    if Does(p, log, d.out, q, mid) && Does(q, mid, e.out, r, end) {
      DoesAppend(p, log, d.out, q, mid, e.out, r, end);
    }
  }
}
