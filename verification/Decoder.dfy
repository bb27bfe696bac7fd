/**
 `ProtocolDecoder.feed` and `finish` (src/oveo/protocol.py): chunks of bytes are decoded as UTF-8, cut into
 lines, and each line is one protocol event. How the bytes are cut into chunks decides nothing, except for
 the size check on unfinished lines; `ChunkingIsInvisible` says exactly when.

 Characters are Unicode scalar values. `parse` stands for the JSON of one line.
 */
module Decoder {
  import opened GenerationStatus
  import opened Protocol

  type Bytes = seq<nat>
  type Text = seq<nat>

  const NEWLINE: nat := 10
  const CR: nat := 13

  // ----- incremental UTF-8 -----

  /** Between characters, or inside one: bytes to come, bits so far, and the range of the next byte. */
  datatype Utf8 = Ready | Need(left: nat, acc: nat, lo: nat, hi: nat) | Broken

  function Utf8Step(u: Utf8, b: nat): (Utf8, Text) {
    match u
    case Broken => (Broken, [])
    case Ready =>
      if b < 0x80 then (Ready, [b])
      else if 0xC2 <= b <= 0xDF then (Need(1, b - 0xC0, 0x80, 0xBF), [])
      else if b == 0xE0 then (Need(2, 0, 0xA0, 0xBF), [])
      else if b == 0xED then (Need(2, 0xD, 0x80, 0x9F), [])
      else if 0xE1 <= b <= 0xEF then (Need(2, b - 0xE0, 0x80, 0xBF), [])
      else if b == 0xF0 then (Need(3, 0, 0x90, 0xBF), [])
      else if 0xF1 <= b <= 0xF3 then (Need(3, b - 0xF0, 0x80, 0xBF), [])
      else if b == 0xF4 then (Need(3, 4, 0x80, 0x8F), [])
      else (Broken, [])
    case Need(left, acc, lo, hi) =>
      if !(lo <= b <= hi) || b < 0x80 then (Broken, [])
      else if left <= 1 then (Ready, [acc * 64 + (b - 0x80)])
      else (Need(left - 1, acc * 64 + (b - 0x80), 0x80, 0xBF), [])
  }

  function Decode(u: Utf8, bytes: Bytes): (Utf8, Text) {
    if bytes == [] then (u, [])
    else
      var (v, text) := Decode(u, bytes[..|bytes| - 1]);
      var (w, more) := Utf8Step(v, bytes[|bytes| - 1]);
      (w, text + more)
  }

  /** The scalar values: every code point but the surrogates. */
  predicate IsScalar(c: nat) {
    c <= 0xD7FF || 0xE000 <= c <= 0x10FFFF
  }

  function Encode(c: nat): Bytes
    requires IsScalar(c)
  {
    if c < 0x80 then [c]
    else if c < 0x800 then [0xC0 + c / 64, 0x80 + c % 64]
    else if c < 0x10000 then [0xE0 + c / 4096, 0x80 + c / 64 % 64, 0x80 + c % 64]
    else [0xF0 + c / 262144, 0x80 + c / 4096 % 64, 0x80 + c / 64 % 64, 0x80 + c % 64]
  }

  function CharBytes(c: nat): nat {
    if c < 0x80 then 1 else if c < 0x800 then 2 else if c < 0x10000 then 3 else 4
  }

  function TextBytes(text: Text): nat {
    if text == [] then 0 else TextBytes(text[..|text| - 1]) + CharBytes(text[|text| - 1])
  }

  lemma DecodeSnoc(u: Utf8, bytes: Bytes, b: nat)
    ensures Decode(u, bytes + [b]) ==
            (Utf8Step(Decode(u, bytes).0, b).0, Decode(u, bytes).1 + Utf8Step(Decode(u, bytes).0, b).1)
  {
    hide Utf8Step;
    assert (bytes + [b])[..|bytes + [b]| - 1] == bytes;
  }

  lemma {:induction false} DecodeAppend(u: Utf8, a: Bytes, b: Bytes)
    ensures Decode(u, a + b) == (Decode(Decode(u, a).0, b).0, Decode(u, a).1 + Decode(Decode(u, a).0, b).1)
    decreases |b|
  {
    hide Utf8Step;
    if b == [] {
      assert a + b == a && Decode(u, a).1 + [] == Decode(u, a).1;
    } else {
      var b', last := b[..|b| - 1], b[|b| - 1];
      DecodeAppend(u, a, b');
      assert a + b == a + b' + [last];
      DecodeSnoc(u, a + b', last);
      var (v, text) := Decode(Decode(u, a).0, b');
      var more := Utf8Step(v, last).1;
      assert Decode(u, a).1 + text + more == Decode(u, a).1 + (text + more);
    }
  }

  /** The byte machine decodes the encoding of every scalar value, and its size is the character's. */
  lemma EncodeDecodes(c: nat)
    requires IsScalar(c)
    ensures Decode(Ready, Encode(c)) == (Ready, [c]) && |Encode(c)| == CharBytes(c)
  {
    hide Decode, Utf8Step;
    var e := Encode(c);
    if c < 0x80 {
      Decode1(c);
    } else if c < 0x800 {
      Decode2(e[0], e[1]);
    } else if c < 0x10000 {
      Sextets(c);
      Decode3(e[0], e[1], e[2]);
    } else {
      EncodeDecodes4(c);
    }
  }

  lemma EncodeDecodes4(c: nat)
    requires IsScalar(c) && c >= 0x10000
    ensures Decode(Ready, Encode(c)) == (Ready, [c]) && |Encode(c)| == 4
  {
    hide Decode, Utf8Step;
    var e := Encode(c);
    Sextets(c);
    Sextets(c / 64);
    Decode4(e[0], e[1], e[2], e[3]);
  }

  lemma Sextets(c: nat)
    ensures c / 64 * 64 + c % 64 == c && c / 64 / 64 == c / 4096 && c / 4096 * 64 + c / 64 % 64 == c / 64
  {
  }

  lemma DecodesTo(bytes: Bytes, b: nat, text: Text, u: Utf8)
    requires Utf8Step(Decode(Ready, bytes).0, b) == (u, text) && Decode(Ready, bytes).1 == []
    ensures Decode(Ready, bytes + [b]) == (u, text)
  {
    hide Utf8Step;
    DecodeSnoc(Ready, bytes, b);
    assert [] + text == text;
  }

  lemma Decode1(a: nat)
    ensures a < 0x80 ==> Decode(Ready, [a]) == (Ready, [a])
    ensures Utf8Step(Ready, a).1 == [] ==> Decode(Ready, [a]) == (Utf8Step(Ready, a).0, [])
  {
    assert [] + [a] == [a] && Decode(Ready, []) == (Ready, []);
    DecodesTo([], a, Utf8Step(Ready, a).1, Utf8Step(Ready, a).0);
  }

  lemma Decode2(a: nat, b: nat)
    requires 0xC2 <= a <= 0xDF && 0x80 <= b <= 0xBF
    ensures Decode(Ready, [a, b]) == (Ready, [(a - 0xC0) * 64 + (b - 0x80)])
  {
    Decode1(a);
    hide Decode;
    assert [a] + [b] == [a, b];
    DecodesTo([a], b, [(a - 0xC0) * 64 + (b - 0x80)], Ready);
  }

  lemma Decode3(a: nat, b: nat, c: nat)
    requires 0xE0 <= a <= 0xEF && 0x80 <= b <= 0xBF && 0x80 <= c <= 0xBF && (a == 0xE0 ==> b >= 0xA0) && (a == 0xED ==> b <= 0x9F)
    ensures Decode(Ready, [a, b, c]) == (Ready, [((a - 0xE0) * 64 + (b - 0x80)) * 64 + (c - 0x80)])
  {
    Decode1(a);
    hide Decode;
    assert [a] + [b] == [a, b] && [a, b] + [c] == [a, b, c];
    var acc := (a - 0xE0) * 64 + (b - 0x80);
    DecodesTo([a], b, [], Need(1, acc, 0x80, 0xBF));
    DecodesTo([a, b], c, [acc * 64 + (c - 0x80)], Ready);
  }

  lemma Decode4(a: nat, b: nat, c: nat, d: nat)
    requires 0xF0 <= a <= 0xF4 && 0x80 <= b <= 0xBF && 0x80 <= c <= 0xBF && 0x80 <= d <= 0xBF
    requires (a == 0xF0 ==> b >= 0x90) && (a == 0xF4 ==> b <= 0x8F)
    ensures Decode(Ready, [a, b, c, d]) == (Ready, [(((a - 0xF0) * 64 + (b - 0x80)) * 64 + (c - 0x80)) * 64 + (d - 0x80)])
  {
    Decode1(a);
    hide Decode;
    assert [a] + [b] == [a, b] && [a, b] + [c] == [a, b, c] && [a, b, c] + [d] == [a, b, c, d];
    var acc := (a - 0xF0) * 64 + (b - 0x80);
    DecodesTo([a], b, [], Need(2, acc, 0x80, 0xBF));
    DecodesTo([a, b], c, [], Need(1, acc * 64 + (c - 0x80), 0x80, 0xBF));
    DecodesTo([a, b, c], d, [(acc * 64 + (c - 0x80)) * 64 + (d - 0x80)], Ready);
  }

  // ----- lines -----

  datatype Config = Config(lim: Limits, parse: Text -> Option<Event>)

  function StripCr(line: Text): Text {
    if line != [] && line[|line| - 1] == CR then line[..|line| - 1] else line
  }

  /** `_consume_line` */
  function ConsumeLine(cfg: Config, m: Machine, line: Text): Option<(Machine, Event)> {
    if line == [] || TextBytes(line) > cfg.lim.maxLineBytes || m.completed then None
    else match cfg.parse(line)
      case None => None
      case Some(e) =>
        match Step(cfg.lim, m, e)
        case None => None
        case Some(n) => Some((n, e))
  }

  /** The unfinished line, the event machine, and the events so far; Bad after any error. */
  datatype Reader = Bad | Reader(pending: Text, machine: Machine, events: seq<Event>)

  function CharStep(cfg: Config, r: Reader, c: nat): Reader {
    if r.Bad? then Bad
    else if c != NEWLINE then r.(pending := r.pending + [c])
    else match ConsumeLine(cfg, r.machine, StripCr(r.pending))
      case None => Bad
      case Some((m, e)) => Reader([], m, r.events + [e])
  }

  function Chars(cfg: Config, r: Reader, text: Text): Reader {
    if text == [] then r else CharStep(cfg, Chars(cfg, r, text[..|text| - 1]), text[|text| - 1])
  }

  // ----- feed and finish -----

  datatype State = State(utf8: Utf8, pending: Text, machine: Machine)

  function Feed(cfg: Config, d: State, chunk: Bytes): Option<(State, seq<Event>)> {
    if d.machine.completed && chunk != [] then None
    else
      var (u, text) := Decode(d.utf8, chunk);
      if u.Broken? then None
      else match Chars(cfg, Reader(d.pending, d.machine, []), text)
        case Bad => None
        case Reader(pending, m, events) =>
          if text != [] && text[|text| - 1] != NEWLINE && TextBytes(pending) > cfg.lim.maxLineBytes then None
          else Some((State(u, pending, m), events))
  }

  function Finish(cfg: Config, d: State): Option<Document> {
    if !d.utf8.Ready? then None
    else if d.pending == [] then DocumentOf(cfg.lim, d.machine)
    else match ConsumeLine(cfg, d.machine, StripCr(d.pending))
      case None => None
      case Some((m, _)) => DocumentOf(cfg.lim, m)
  }

  const FRESH := State(Ready, [], START)

  /** The document and all events of a stream that arrives in chunks; None if any call raises. */
  function Stream(cfg: Config, d: State, chunks: seq<Bytes>): Option<(Document, seq<Event>)>
    decreases |chunks|
  {
    if chunks == [] then
      match Finish(cfg, d)
      case None => None
      case Some(doc) => Some((doc, []))
    else match Feed(cfg, d, chunks[0])
      case None => None
      case Some((e, events)) =>
        match Stream(cfg, e, chunks[1..])
        case None => None
        case Some((doc, more)) => Some((doc, events + more))
  }

  function Flatten(chunks: seq<Bytes>): Bytes {
    if chunks == [] then [] else chunks[0] + Flatten(chunks[1..])
  }

  /** The decoder as the source's object. */
  class ProtocolDecoder {
    const cfg: Config
    var utf8: Utf8
    var pending: Text
    var pendingBytes: nat
    var machine: Machine

    ghost predicate Valid()
      reads this
    {
      pendingBytes == TextBytes(pending)
    }

    function Value(): State
      reads this
    {
      State(utf8, pending, machine)
    }

    constructor (cfg: Config)
      ensures Valid() && Value() == FRESH && this.cfg == cfg
    {
      this.cfg := cfg;
      utf8, pending, pendingBytes, machine := Ready, [], 0, START;
    }

    method FeedChunk(chunk: Bytes) returns (r: Option<seq<Event>>)
      requires Valid()
      modifies this
      ensures match Feed(cfg, old(Value()), chunk)
              case None => r.None?
              case Some((d, events)) => r == Some(events) && Value() == d && Valid()
    {
      hide Chars, TextBytes, Decode;
      if machine.completed && chunk != [] {
        return None;
      }
      var text: Text;
      utf8, text := DecodeChunk(utf8, chunk);
      if utf8.Broken? {
        return None;
      }
      r := DrainCompleteLines(text);
    }

    /** `_drain_complete_lines` */
    method DrainCompleteLines(text: Text) returns (r: Option<seq<Event>>)
      requires Valid()
      modifies this`pending, this`pendingBytes, this`machine
      ensures match Chars(cfg, Reader(old(pending), old(machine), []), text)
              case Bad => r.None?
              case Reader(p, m, events) =>
                if text != [] && text[|text| - 1] != NEWLINE && TextBytes(p) > cfg.lim.maxLineBytes then r.None?
                else r == Some(events) && pending == p && machine == m && Valid()
    {
      hide Chars, TextBytes, ConsumeLine;
      ghost var first := Reader(pending, machine, []);
      var events: seq<Event> := [];
      var start := 0;
      assert text[..0] == [];
      NoChars(cfg, first);
      var newline := FindNewline(text, start);
      while newline < |text|
        invariant 0 <= start <= newline <= |text|
        invariant Chars(cfg, first, text[..start]) == Reader(pending, machine, events) && Valid()
        invariant start == 0 || (pending == [] && text[start - 1] == NEWLINE)
        invariant forall i :: start <= i < newline ==> text[i] != NEWLINE
        invariant newline < |text| ==> text[newline] == NEWLINE
        decreases |text| - start
      {
        OneLine(cfg, first, text, start, newline, pending, machine, events);
        var line := StripCr(pending + text[start..newline]);
        pending, pendingBytes := [], 0;
        NoBytes();
        var consumed := ConsumeLine(cfg, machine, line);
        if consumed.None? {
          BadStays(cfg, first, text[..newline + 1], text[newline + 1..]);
          assert text == text[..newline + 1] + text[newline + 1..];
          return None;
        }
        machine := consumed.value.0;
        events := events + [consumed.value.1];
        start := newline + 1;
        newline := FindNewline(text, start);
      }
      Rest(cfg, first, text, start, pending, machine, events);
      if start < |text| {
        BytesAppend(pending, text[start..]);
        var added := BytesOf(text[start..]);
        pendingBytes := pendingBytes + added;
        pending := pending + text[start..];
        if pendingBytes > cfg.lim.maxLineBytes {
          return None;
        }
      } else {
        assert pending + text[start..] == pending;
      }
      return Some(events);
    }

    method FinishStream() returns (r: Option<Document>)
      requires Valid()
      modifies this
      ensures r == Finish(cfg, old(Value()))
    {
      if !utf8.Ready? {
        return None;
      }
      if pending != [] {
        var line := pending;
        pending, pendingBytes := [], 0;
        var consumed := ConsumeLine(cfg, machine, StripCr(line));
        if consumed.None? {
          return None;
        }
        machine := consumed.value.0;
      }
      if !machine.completed || machine.state.None? {
        return None;
      }
      var valid := ValidateContentBlocks(cfg.lim, machine.blocks);
      if !valid {
        return None;
      }
      return Some(Document(machine.blocks, machine.state.value));
    }
  }

  method DecodeChunk(u0: Utf8, bytes: Bytes) returns (u: Utf8, text: Text)
    ensures (u, text) == Decode(u0, bytes)
  {
    u, text := u0, [];
    assert bytes[..0] == [];
    for i := 0 to |bytes|
      invariant (u, text) == Decode(u0, bytes[..i])
    {
      assert bytes[..i + 1] == bytes[..i] + [bytes[i]];
      DecodeSnoc(u0, bytes[..i], bytes[i]);
      var (v, more) := Utf8Step(u, bytes[i]);
      u, text := v, text + more;
    }
    assert bytes[..|bytes|] == bytes;
  }

  method BytesOf(text: Text) returns (n: nat)
    ensures n == TextBytes(text)
  {
    n := 0;
    for i := 0 to |text|
      invariant n == TextBytes(text[..i])
    {
      assert text[..i + 1][..i] == text[..i];
      n := n + CharBytes(text[i]);
    }
    assert text[..|text|] == text;
  }

  method FindNewline(text: Text, start: nat) returns (i: nat)
    requires start <= |text|
    ensures start <= i <= |text| && (forall k :: start <= k < i ==> text[k] != NEWLINE) && (i < |text| ==> text[i] == NEWLINE)
  {
    i := start;
    while i < |text| && text[i] != NEWLINE
      invariant start <= i <= |text| && forall k :: start <= k < i ==> text[k] != NEWLINE
    {
      i := i + 1;
    }
  }

  // ----- folding characters -----

  lemma NoChars(cfg: Config, r: Reader)
    ensures Chars(cfg, r, []) == r
  {
  }

  lemma NoBytes()
    ensures TextBytes([]) == 0
  {
  }

  lemma CharsSnoc(cfg: Config, r: Reader, text: Text, c: nat)
    ensures Chars(cfg, r, text + [c]) == CharStep(cfg, Chars(cfg, r, text), c)
  {
    hide CharStep;
    assert (text + [c])[..|text + [c]| - 1] == text;
  }

  lemma {:induction false} CharsAppend(cfg: Config, r: Reader, a: Text, b: Text)
    ensures Chars(cfg, r, a + b) == Chars(cfg, Chars(cfg, r, a), b)
    decreases |b|
  {
    hide CharStep;
    if b == [] {
      assert a + b == a;
    } else {
      var b', c := b[..|b| - 1], b[|b| - 1];
      CharsAppend(cfg, r, a, b');
      assert a + b == a + b' + [c];
      CharsSnoc(cfg, r, a + b', c);
    }
  }

  lemma BadStays(cfg: Config, r: Reader, a: Text, b: Text)
    requires Chars(cfg, r, a).Bad?
    ensures Chars(cfg, r, a + b).Bad?
  {
    CharsAppend(cfg, r, a, b);
    FromBad(cfg, b);
  }

  lemma {:induction false} FromBad(cfg: Config, text: Text)
    ensures Chars(cfg, Bad, text).Bad?
  {
    if text != [] {
      FromBad(cfg, text[..|text| - 1]);
    }
  }

  lemma {:induction false} NoNewline(cfg: Config, r: Reader, text: Text)
    requires r.Reader? && forall i :: 0 <= i < |text| ==> text[i] != NEWLINE
    ensures Chars(cfg, r, text) == r.(pending := r.pending + text)
  {
    if text == [] {
      assert r.pending + text == r.pending;
    } else {
      NoNewline(cfg, r, text[..|text| - 1]);
      assert r.pending + text == r.pending + text[..|text| - 1] + [text[|text| - 1]];
    }
  }

  lemma OneLine(cfg: Config, first: Reader, text: Text, start: nat, newline: nat, pending: Text, m: Machine, events: seq<Event>)
    requires start <= newline < |text| && text[newline] == NEWLINE && forall i :: start <= i < newline ==> text[i] != NEWLINE
    requires Chars(cfg, first, text[..start]) == Reader(pending, m, events)
    ensures Chars(cfg, first, text[..newline + 1]) ==
            match ConsumeLine(cfg, m, StripCr(pending + text[start..newline]))
            case None => Bad
            case Some((n, e)) => Reader([], n, events + [e])
  {
    hide Chars, ConsumeLine;
    assert text[..newline] == text[..start] + text[start..newline];
    CharsAppend(cfg, first, text[..start], text[start..newline]);
    NoNewline(cfg, Reader(pending, m, events), text[start..newline]);
    assert text[..newline + 1] == text[..newline] + [text[newline]];
    CharsSnoc(cfg, first, text[..newline], text[newline]);
  }

  lemma Rest(cfg: Config, first: Reader, text: Text, start: nat, pending: Text, m: Machine, events: seq<Event>)
    requires start <= |text| && forall i :: start <= i < |text| ==> text[i] != NEWLINE
    requires Chars(cfg, first, text[..start]) == Reader(pending, m, events)
    ensures Chars(cfg, first, text) == Reader(pending + text[start..], m, events)
  {
    hide Chars;
    assert text == text[..start] + text[start..];
    CharsAppend(cfg, first, text[..start], text[start..]);
    NoNewline(cfg, Reader(pending, m, events), text[start..]);
  }

  lemma {:induction false} BytesAppend(a: Text, b: Text)
    ensures TextBytes(a + b) == TextBytes(a) + TextBytes(b)
    decreases |b|
  {
    if b == [] {
      assert a + b == a;
    } else {
      BytesAppend(a, b[..|b| - 1]);
      assert (a + b)[..|a + b| - 1] == a + b[..|b| - 1];
    }
  }
}
