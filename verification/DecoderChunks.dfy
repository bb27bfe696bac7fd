/**
 Chunking does not matter to the decoder (`ProtocolDecoder`, src/oveo/protocol.py), with UTF-8 sequences and
 CRLF cut anywhere, exactly as long as no unfinished line can hit the size check.
 */
module DecoderChunks {
  import opened GenerationStatus
  import opened Protocol
  import opened Decoder

  /** The whole stream read at once, without the size check on unfinished lines. */
  function Ideal(cfg: Config, d: State, bytes: Bytes): Option<(Document, seq<Event>)> {
    var (u, text) := Decode(d.utf8, bytes);
    match Chars(cfg, Reader(d.pending, d.machine, []), text)
    case Bad => None
    case Reader(pending, m, events) =>
      match Finish(cfg, State(u, pending, m))
      case None => None
      case Some(doc) => Some((doc, events))
  }

  /** The unfinished line after `text`, with its CR. */
  function Unfinished(pending: Text, text: Text): Text {
    if text == [] then pending
    else if text[|text| - 1] == NEWLINE then []
    else Unfinished(pending, text[..|text| - 1]) + [text[|text| - 1]]
  }

  /** No line, counted with its CR, ever exceeds the limit. */
  ghost predicate LinesFit(cfg: Config, pending: Text, text: Text) {
    forall k :: 0 <= k <= |text| ==> TextBytes(Unfinished(pending, text[..k])) <= cfg.lim.maxLineBytes
  }

  ghost predicate Fits(cfg: Config, bytes: Bytes) {
    LinesFit(cfg, [], Decode(Ready, bytes).1)
  }

  /** Every way to cut the bytes gives the same document and events, or the same failure. */
  ghost predicate ChunkIndependent(cfg: Config, bytes: Bytes) {
    forall chunks :: Flatten(chunks) == bytes ==> Stream(cfg, FRESH, chunks) == Stream(cfg, FRESH, [bytes])
  }

  // ----- unfinished lines -----

  lemma {:induction false} PendingIsUnfinished(cfg: Config, r: Reader, text: Text)
    requires r.Reader?
    ensures Chars(cfg, r, text).Reader? ==> Chars(cfg, r, text).pending == Unfinished(r.pending, text)
  {
    if text != [] {
      hide ConsumeLine;
      PendingIsUnfinished(cfg, r, text[..|text| - 1]);
    }
  }

  lemma {:induction false} UnfinishedAppend(pending: Text, a: Text, b: Text)
    ensures Unfinished(pending, a + b) == Unfinished(Unfinished(pending, a), b)
    decreases |b|
  {
    if b == [] {
      assert a + b == a;
    } else {
      UnfinishedAppend(pending, a, b[..|b| - 1]);
      assert (a + b)[..|a + b| - 1] == a + b[..|b| - 1];
    }
  }

  lemma FitsSplit(cfg: Config, pending: Text, a: Text, b: Text)
    requires LinesFit(cfg, pending, a + b)
    ensures LinesFit(cfg, Unfinished(pending, a), b) && TextBytes(Unfinished(pending, a)) <= cfg.lim.maxLineBytes
  {
    hide Unfinished, TextBytes;
    assert (a + b)[..|a|] == a;
    forall k | 0 <= k <= |b|
      ensures TextBytes(Unfinished(Unfinished(pending, a), b[..k])) <= cfg.lim.maxLineBytes
    {
      UnfinishedAppend(pending, a, b[..k]);
      assert (a + b)[..|a| + k] == a + b[..k];
    }
  }

  // ----- one chunk, then the rest -----

  function WithEvents(events: seq<Event>, r: Reader): Reader {
    if r.Bad? then Bad else r.(events := events + r.events)
  }

  lemma {:induction false} EventsAreLocal(cfg: Config, pending: Text, m: Machine, events: seq<Event>, text: Text)
    ensures Chars(cfg, Reader(pending, m, events), text) == WithEvents(events, Chars(cfg, Reader(pending, m, []), text))
  {
    hide ConsumeLine;
    if text == [] {
      assert events + [] == events;
    } else {
      EventsAreLocal(cfg, pending, m, events, text[..|text| - 1]);
      var r := Chars(cfg, Reader(pending, m, []), text[..|text| - 1]);
      var c := text[|text| - 1];
      if r.Reader? {
        var consumed := ConsumeLine(cfg, r.machine, StripCr(r.pending));
        if consumed.Some? {
          assert events + r.events + [consumed.value.1] == events + (r.events + [consumed.value.1]);
        }
      }
    }
  }

  function After(events: seq<Event>, r: Option<(Document, seq<Event>)>): Option<(Document, seq<Event>)> {
    match r
    case None => None
    case Some((doc, more)) => Some((doc, events + more))
  }

  /** Reading a chunk and then the rest is reading both at once. */
  lemma FeedThenRest(cfg: Config, d: State, chunk: Bytes, rest: Bytes)
    requires Feed(cfg, d, chunk).Some?
    ensures var (e, events) := Feed(cfg, d, chunk).value;
            Ideal(cfg, d, chunk + rest) == After(events, Ideal(cfg, e, rest))
  {
    hide Decode, Chars, TextBytes, Finish;
    var (e, events) := Feed(cfg, d, chunk).value;
    var r := Reader(d.pending, d.machine, []);
    var (u, a) := Decode(d.utf8, chunk);
    var (v, b) := Decode(u, rest);
    DecodeAppend(d.utf8, chunk, rest);
    CharsAppend(cfg, r, a, b);
    EventsAreLocal(cfg, e.pending, e.machine, events, b);
  }

  lemma {:induction false} BrokenStays(bytes: Bytes)
    ensures Decode(Broken, bytes).0.Broken?
  {
    if bytes != [] {
      BrokenStays(bytes[..|bytes| - 1]);
    }
  }

  /** A character completes whenever the byte machine is between characters again. */
  lemma ReadyHasRead(u: Utf8, bytes: Bytes)
    requires bytes != [] && Decode(u, bytes).0.Ready?
    ensures Decode(u, bytes).1 != []
  {
  }

  lemma {:induction false} CompletedStays(cfg: Config, r: Reader, text: Text)
    requires r.Reader? && r.machine.completed
    ensures var t := Chars(cfg, r, text);
            t.Bad? || (t.machine == r.machine && t.pending == r.pending + text)
  {
    if text == [] {
      assert r.pending + text == r.pending;
    } else {
      CompletedStays(cfg, r, text[..|text| - 1]);
      assert r.pending + text == r.pending + text[..|text| - 1] + [text[|text| - 1]];
    }
  }

  /** Anything after the end of the response is an error, now or at the end. */
  lemma NothingAfterTheEnd(cfg: Config, d: State, bytes: Bytes)
    requires d.machine.completed && bytes != []
    ensures Ideal(cfg, d, bytes).None?
  {
    hide Decode, Chars, TextBytes;
    var (u, text) := Decode(d.utf8, bytes);
    CompletedStays(cfg, Reader(d.pending, d.machine, []), text);
    if u.Ready? {
      ReadyHasRead(d.utf8, bytes);
    }
  }

  /** A chunk that fails for any reason but its size makes the whole stream fail. */
  lemma FeedFails(cfg: Config, d: State, chunk: Bytes, rest: Bytes)
    requires Feed(cfg, d, chunk).None?
    requires var text := Decode(d.utf8, chunk).1; TextBytes(Unfinished(d.pending, text)) <= cfg.lim.maxLineBytes
    ensures Ideal(cfg, d, chunk + rest).None?
  {
    hide Decode, Chars, TextBytes, ConsumeLine;
    var (u, a) := Decode(d.utf8, chunk);
    var r := Reader(d.pending, d.machine, []);
    if d.machine.completed && chunk != [] {
      NothingAfterTheEnd(cfg, d, chunk + rest);
    } else {
      DecodeAppend(d.utf8, chunk, rest);
      CharsAppend(cfg, r, a, Decode(u, rest).1);
      PendingIsUnfinished(cfg, r, a);
      if u.Broken? {
        BrokenStays(rest);
      } else {
        FromBad(cfg, Decode(u, rest).1);
      }
    }
  }

  // ----- all chunks -----

  /** A stream that succeeds chunk by chunk succeeds at once, with the same result. */
  lemma {:induction false} SuccessIsIdeal(cfg: Config, d: State, chunks: seq<Bytes>)
    requires Stream(cfg, d, chunks).Some? && TextBytes(d.pending) <= cfg.lim.maxLineBytes
    ensures Ideal(cfg, d, Flatten(chunks)) == Stream(cfg, d, chunks)
    ensures TextBytes(Unfinished(d.pending, Decode(d.utf8, Flatten(chunks)).1)) <= cfg.lim.maxLineBytes
    decreases |chunks|
  {
    hide Feed, Ideal, TextBytes, Decode;
    if chunks == [] {
      EmptyStream(cfg, d);
    } else {
      var rest := Flatten(chunks[1..]);
      var (e, events) := Feed(cfg, d, chunks[0]).value;
      FeedPending(cfg, d, chunks[0]);
      SuccessIsIdeal(cfg, e, chunks[1..]);
      FeedThenRest(cfg, d, chunks[0], rest);
      DecodeAppend(d.utf8, chunks[0], rest);
      UnfinishedAppend(d.pending, Decode(d.utf8, chunks[0]).1, Decode(e.utf8, rest).1);
    }
  }

  lemma EmptyStream(cfg: Config, d: State)
    ensures Ideal(cfg, d, []) == Stream(cfg, d, []) && Decode(d.utf8, []).1 == [] && Unfinished(d.pending, []) == d.pending
  {
  }

  lemma FeedPending(cfg: Config, d: State, chunk: Bytes)
    requires Feed(cfg, d, chunk).Some? && TextBytes(d.pending) <= cfg.lim.maxLineBytes
    ensures var (e, _) := Feed(cfg, d, chunk).value;
            && e.utf8 == Decode(d.utf8, chunk).0
            && e.pending == Unfinished(d.pending, Decode(d.utf8, chunk).1)
            && TextBytes(e.pending) <= cfg.lim.maxLineBytes
  {
    hide Decode, Chars, ConsumeLine;
    PendingIsUnfinished(cfg, Reader(d.pending, d.machine, []), Decode(d.utf8, chunk).1);
  }

  /** When every line fits, any chunks give the ideal result. */
  lemma {:induction false} FittingIsIdeal(cfg: Config, d: State, chunks: seq<Bytes>)
    requires LinesFit(cfg, d.pending, Decode(d.utf8, Flatten(chunks)).1)
    ensures Stream(cfg, d, chunks) == Ideal(cfg, d, Flatten(chunks))
    decreases |chunks|
  {
    hide Feed, Ideal, TextBytes, Decode, LinesFit, Unfinished;
    if chunks == [] {
      EmptyStream(cfg, d);
    } else {
      var rest := Flatten(chunks[1..]);
      var (u, a) := Decode(d.utf8, chunks[0]);
      DecodeAppend(d.utf8, chunks[0], rest);
      FitsSplit(cfg, d.pending, a, Decode(u, rest).1);
      if Feed(cfg, d, chunks[0]).None? {
        FeedFails(cfg, d, chunks[0], rest);
      } else {
        var (e, events) := Feed(cfg, d, chunks[0]).value;
        FitsStart(cfg, d, a + Decode(u, rest).1);
        FeedPending(cfg, d, chunks[0]);
        FittingIsIdeal(cfg, e, chunks[1..]);
        FeedThenRest(cfg, d, chunks[0], rest);
      }
    }
  }

  lemma FitsStart(cfg: Config, d: State, text: Text)
    requires LinesFit(cfg, d.pending, text)
    ensures TextBytes(d.pending) <= cfg.lim.maxLineBytes
  {
    assert text[..0] == [] && Unfinished(d.pending, []) == d.pending;
  }

  /** A single chunk fails only as the ideal reading does, or on its last, unterminated line. */
  lemma WholeChunk(cfg: Config, bytes: Bytes)
    requires TextBytes(Unfinished([], Decode(Ready, bytes).1)) <= cfg.lim.maxLineBytes
    ensures Stream(cfg, FRESH, [bytes]) == Ideal(cfg, FRESH, bytes)
  {
    hide Feed, Ideal, TextBytes, Decode, Unfinished;
    assert [bytes][1..] == [] && bytes + [] == bytes;
    if Feed(cfg, FRESH, bytes).None? {
      FeedFails(cfg, FRESH, bytes, []);
    } else {
      FeedThenRest(cfg, FRESH, bytes, []);
      EmptyStream(cfg, Feed(cfg, FRESH, bytes).value.0);
    }
  }

  /** The number of bytes that decode to the first `k` characters. */
  lemma {:induction false} ByteIndex(bytes: Bytes, k: nat) returns (i: nat)
    requires k <= |Decode(Ready, bytes).1|
    ensures i <= |bytes| && Decode(Ready, bytes[..i]).1 == Decode(Ready, bytes).1[..k]
  {
    if k == |Decode(Ready, bytes).1| {
      i := |bytes|;
      assert bytes[..i] == bytes;
    } else {
      hide Utf8Step;
      var before := bytes[..|bytes| - 1];
      OneCharAtMost(Decode(Ready, before).0, bytes[|bytes| - 1]);
      i := ByteIndex(before, k);
      assert before[..i] == bytes[..i];
    }
  }

  lemma OneCharAtMost(u: Utf8, b: nat)
    ensures |Utf8Step(u, b).1| <= 1
  {
  }

  /** Cut where a line is too long: the first chunk alone is refused. */
  lemma LongLineIsRefused(cfg: Config, bytes: Bytes, k: nat) returns (chunks: seq<Bytes>)
    requires k <= |Decode(Ready, bytes).1|
    requires TextBytes(Unfinished([], Decode(Ready, bytes).1[..k])) > cfg.lim.maxLineBytes
    ensures Flatten(chunks) == bytes && Stream(cfg, FRESH, chunks).None?
  {
    hide Decode, Chars;
    var i := ByteIndex(bytes, k);
    chunks := [bytes[..i], bytes[i..]];
    assert chunks[1..] == [bytes[i..]] && chunks[1..][1..] == [];
    FlattenOne(bytes[i..]);
    assert Flatten(chunks) == bytes[..i] + Flatten(chunks[1..]);
    assert bytes[..i] + bytes[i..] == bytes;
    var text := Decode(Ready, bytes[..i]).1;
    PendingIsUnfinished(cfg, Reader([], START, []), text);
    hide Stream;
    FirstChunkFails(cfg, chunks);
  }

  lemma FirstChunkFails(cfg: Config, chunks: seq<Bytes>)
    requires chunks != [] && Feed(cfg, FRESH, chunks[0]).None?
    ensures Stream(cfg, FRESH, chunks).None?
  {
  }

  lemma ChunkingNeedsFit(cfg: Config, bytes: Bytes)
    ensures ChunkIndependent(cfg, bytes) <==> Stream(cfg, FRESH, [bytes]).None? || Fits(cfg, bytes)
  {
    hide Stream, Decode, TextBytes, Unfinished, Ideal;
    var text := Decode(Ready, bytes).1;
    EmptyLine();
    if Fits(cfg, bytes) {
      FlattenOne(bytes);
      FittingIsIdeal(cfg, FRESH, [bytes]);
      forall chunks | Flatten(chunks) == bytes
        ensures Stream(cfg, FRESH, chunks) == Stream(cfg, FRESH, [bytes])
      {
        FittingIsIdeal(cfg, FRESH, chunks);
      }
    } else {
      var k :| 0 <= k <= |text| && TextBytes(Unfinished([], text[..k])) > cfg.lim.maxLineBytes;
      if Stream(cfg, FRESH, [bytes]).None? {
        forall chunks | Flatten(chunks) == bytes
          ensures Stream(cfg, FRESH, chunks) == Stream(cfg, FRESH, [bytes])
        {
          if Stream(cfg, FRESH, chunks).Some? {
            SuccessIsIdeal(cfg, FRESH, chunks);
            WholeChunk(cfg, bytes);
          }
        }
      } else {
        var chunks := LongLineIsRefused(cfg, bytes, k);
        assert Flatten(chunks) == bytes && Stream(cfg, FRESH, chunks) != Stream(cfg, FRESH, [bytes]);
      }
    }
  }

  lemma EmptyLine()
    ensures TextBytes([]) == 0
  {
  }

  lemma FlattenOne(bytes: Bytes)
    ensures Flatten([bytes]) == bytes
  {
    assert [bytes][1..] == [] && bytes + [] == bytes;
  }

  // ----- the condition on the bytes -----

  /** A line of exactly the maximal size is ended by CR and LF; the CR is at position `k`. */
  predicate FullLineAt(cfg: Config, text: Text, k: nat) {
    k + 1 < |text| && text[k] == CR && text[k + 1] == NEWLINE && TextBytes(Unfinished([], text[..k])) == cfg.lim.maxLineBytes
  }

  ghost predicate HasFullCrLine(cfg: Config, bytes: Bytes) {
    exists k: nat :: FullLineAt(cfg, Decode(Ready, bytes).1, k)
  }

  /** A line that was read is within the limit without its CR. */
  lemma ReadLineFits(cfg: Config, text: Text, p: nat)
    requires Chars(cfg, Reader([], START, []), text).Reader? && p < |text| && text[p] == NEWLINE
    ensures TextBytes(StripCr(Unfinished([], text[..p]))) <= cfg.lim.maxLineBytes
  {
    hide Chars, TextBytes, Unfinished;
    var r := Reader([], START, []);
    var a, b := text[..p + 1], text[p + 1..];
    assert text == a + b && a == text[..p] + [text[p]];
    CharsAppend(cfg, r, a, b);
    FromBad(cfg, b);
    CharsSnoc(cfg, r, text[..p], text[p]);
    PendingIsUnfinished(cfg, r, text[..p]);
  }

  lemma {:induction false} NextNewline(text: Text, k: nat) returns (p: nat)
    requires k <= |text|
    ensures k <= p <= |text| && (p < |text| ==> text[p] == NEWLINE) && forall i :: k <= i < p ==> text[i] != NEWLINE
    decreases |text| - k
  {
    if k == |text| || text[k] == NEWLINE {
      p := k;
    } else {
      p := NextNewline(text, k + 1);
    }
  }

  /** Without a newline the unfinished line only grows. */
  lemma {:induction false} UnfinishedGrows(text: Text, k: nat, p: nat)
    requires k <= p <= |text| && forall i :: k <= i < p ==> text[i] != NEWLINE
    ensures TextBytes(Unfinished([], text[..p])) >= TextBytes(Unfinished([], text[..k]))
    ensures k < p ==> Unfinished([], text[..p]) == Unfinished([], text[..p - 1]) + [text[p - 1]]
    decreases p
  {
    hide Unfinished, TextBytes;
    if k < p {
      UnfinishedGrows(text, k, p - 1);
      UnfinishedSnoc(text, p);
      BytesSnoc(Unfinished([], text[..p - 1]), text[p - 1]);
    }
  }

  lemma UnfinishedSnoc(text: Text, p: nat)
    requires 0 < p <= |text| && text[p - 1] != NEWLINE
    ensures Unfinished([], text[..p]) == Unfinished([], text[..p - 1]) + [text[p - 1]]
  {
    assert text[..p][..p - 1] == text[..p - 1];
  }

  lemma BytesSnoc(line: Text, c: nat)
    ensures TextBytes(line + [c]) == TextBytes(line) + CharBytes(c)
  {
    assert (line + [c])[..|line|] == line;
  }

  /** A line that fits without its CR but not with it ends in a CR after exactly the limit. */
  lemma OnlyTheCr(line: Text, max: nat)
    requires TextBytes(line) > max && TextBytes(StripCr(line)) <= max
    ensures line != [] && line[|line| - 1] == CR && TextBytes(line[..|line| - 1]) == max
  {
  }

  /** For an accepted stream: a line exceeds the limit with its CR exactly if it is full and followed by CR and LF. */
  lemma OverlongIsFull(cfg: Config, bytes: Bytes)
    requires Stream(cfg, FRESH, [bytes]).Some?
    ensures Fits(cfg, bytes) <==> !HasFullCrLine(cfg, bytes)
  {
    hide Stream, Decode, TextBytes, Unfinished, Chars, Ideal;
    var text := Decode(Ready, bytes).1;
    AcceptedReads(cfg, bytes);
    if k: nat :| FullLineAt(cfg, text, k) {
      assert text[..k + 1][..k] == text[..k];
      UnfinishedGrows(text, k, k + 1);
      BytesSnoc(Unfinished([], text[..k]), CR);
      assert TextBytes(Unfinished([], text[..k + 1])) > cfg.lim.maxLineBytes;
    }
    if !Fits(cfg, bytes) {
      var k :| 0 <= k <= |text| && TextBytes(Unfinished([], text[..k])) > cfg.lim.maxLineBytes;
      var p := NextNewline(text, k);
      UnfinishedGrows(text, k, p);
      assert text[..|text|] == text;
      assert p < |text|;
      ReadLineFits(cfg, text, p);
      var line := Unfinished([], text[..p]);
      OnlyTheCr(line, cfg.lim.maxLineBytes);
      LastOfLine(text, p);
      assert FullLineAt(cfg, text, p - 1);
    }
  }

  lemma LastOfLine(text: Text, p: nat)
    requires p <= |text| && Unfinished([], text[..p]) != []
    ensures p > 0 && Unfinished([], text[..p]) == Unfinished([], text[..p - 1]) + [text[p - 1]]
  {
    assert text[..0] == [];
    if p > 0 {
      assert text[..p][..p - 1] == text[..p - 1];
    }
  }

  lemma AcceptedReads(cfg: Config, bytes: Bytes)
    requires Stream(cfg, FRESH, [bytes]).Some?
    ensures var text := Decode(Ready, bytes).1;
            Chars(cfg, Reader([], START, []), text).Reader? && TextBytes(Unfinished([], text)) <= cfg.lim.maxLineBytes
  {
    hide Decode, Chars, TextBytes, Unfinished;
    EmptyLine();
    FeedPending(cfg, FRESH, bytes);
  }

  /**
   How a stream is cut is invisible if it is refused in one piece; if it is accepted in one piece, exactly if no
   line of the maximal size is ended by CR and LF.
   */
  lemma ChunkingIsInvisible(cfg: Config, bytes: Bytes)
    ensures Stream(cfg, FRESH, [bytes]).None? ==> ChunkIndependent(cfg, bytes)
    ensures Stream(cfg, FRESH, [bytes]).Some? ==> (ChunkIndependent(cfg, bytes) <==> !HasFullCrLine(cfg, bytes))
  {
    hide Stream, Fits, HasFullCrLine, ChunkIndependent;
    ChunkingNeedsFit(cfg, bytes);
    if Stream(cfg, FRESH, [bytes]).Some? {
      OverlongIsFull(cfg, bytes);
    }
  }
}
