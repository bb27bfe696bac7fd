/**
 Hyperlink tokens in block text (src/oveo/docx.py).

 Block text shows each protected hyperlink as `{{OVEO_LINK_lNNNNNN}}display{{/OVEO_LINK_lNNNNNN}}`.
 `Print` embeds links as tokens and `Parse` is what the regular expression scan of `_link_parts`
 finds. The two are mutual inverses on strings free of the two reserved prefixes.
 */
module DocxLinks {

  datatype Option<+T> = None | Some(value: T)

  /** The plain stretches of a block text and its (identifier, display) links. */
  datatype Parts = Parts(plain: seq<string>, links: seq<(string, string)>)

  const OPEN_PREFIX: string := "{{OVEO_LINK_"
  const CLOSE_PREFIX: string := "{{/OVEO_LINK_"

  // ----- identifiers -----

  function Digit(n: nat): char
    requires n < 10
  {
    '0' + n as char
  }

  /** The last `width` decimal digits of a number. */
  function Digits(n: nat, width: nat): (s: string)
    ensures |s| == width && IsDigits(s)
  {
    if width == 0 then "" else Digits(n / 10, width - 1) + [Digit(n % 10)]
  }

  function Decimal(n: nat): (s: string)
    ensures s != []
  {
    if n < 10 then [Digit(n)] else Decimal(n / 10) + [Digit(n % 10)]
  }

  /** Python's `{n:06d}`: padded to six digits, longer from one million on. */
  function Padded(n: nat): string {
    if n < 1_000_000 then Digits(n, 6) else Decimal(n)
  }

  function LinkId(n: nat): string {
    "l" + Padded(n)
  }

  function BlockId(n: nat): string {
    "p" + Padded(n)
  }

  predicate IsDigits(s: string) {
    forall i :: 0 <= i < |s| ==> '0' <= s[i] <= '9'
  }

  /** `l[0-9]{6}` */
  predicate IsLinkId(id: string) {
    |id| == 7 && id[0] == 'l' && IsDigits(id[1..])
  }

  function Pow10(k: nat): (p: nat)
    ensures p > 0
  {
    if k == 0 then 1 else 10 * Pow10(k - 1)
  }

  lemma {:induction false} DigitsInjective(a: nat, b: nat, width: nat)
    requires a < Pow10(width) && b < Pow10(width)
    requires Digits(a, width) == Digits(b, width)
    ensures a == b
  {
    if width > 0 {
      var s, t := Digits(a / 10, width - 1), Digits(b / 10, width - 1);
      assert s == (s + [Digit(a % 10)])[..width - 1] && t == (t + [Digit(b % 10)])[..width - 1];
      assert (s + [Digit(a % 10)])[width - 1] == Digit(a % 10) && (t + [Digit(b % 10)])[width - 1] == Digit(b % 10);
      DigitsInjective(a / 10, b / 10, width - 1);
    }
  }

  /** Identifiers of different links differ, so a gap in the numbering shows. */
  lemma LinkIdInjective(a: nat, b: nat)
    requires a < 1_000_000 && b < 1_000_000 && LinkId(a) == LinkId(b)
    ensures a == b
  {
    assert LinkId(a)[1..] == Padded(a) && LinkId(b)[1..] == Padded(b);
    assert Pow10(6) == 1_000_000 by {
      assert Pow10(3) == 1_000;
    }
    DigitsInjective(a, b, 6);
  }

  lemma LinkIdShape(n: nat)
    requires n < 1_000_000
    ensures IsLinkId(LinkId(n))
  {
    assert LinkId(n)[1..] == Padded(n);
  }

  // ----- the token pattern -----

  function OpenToken(id: string): (t: string)
    ensures |t| == |id| + 14
  {
    "{{OVEO_LINK_" + id + "}}"
  }

  function CloseToken(id: string): (t: string)
    ensures |t| == |id| + 15
  {
    "{{/OVEO_LINK_" + id + "}}"
  }

  predicate OccursAt(text: string, pattern: string, i: nat) {
    i + |pattern| <= |text| && text[i..i + |pattern|] == pattern
  }

  ghost predicate Contains(text: string, pattern: string) {
    exists i: nat :: OccursAt(text, pattern, i)
  }

  /** Neither reserved prefix occurs: what `_reject_reserved_link_text` demands. */
  ghost predicate Free(text: string) {
    !Contains(text, OPEN_PREFIX) && !Contains(text, CLOSE_PREFIX)
  }

  /** First occurrence of `pattern` at or after `from`. */
  function Find(text: string, pattern: string, from: nat): (r: Option<nat>)
    ensures r.Some? ==> from <= r.value && r.value + |pattern| <= |text|
    decreases |text| - from
  {
    if from + |pattern| > |text| then None
    else if OccursAt(text, pattern, from) then Some(from)
    else Find(text, pattern, from + 1)
  }

  /** Find reports the first occurrence and misses none. */
  lemma FindFirst(text: string, pattern: string, from: nat)
    ensures match Find(text, pattern, from)
            case Some(e) => OccursAt(text, pattern, e) && forall i: nat :: from <= i < e ==> !OccursAt(text, pattern, i)
            case None => forall i: nat :: from <= i ==> !OccursAt(text, pattern, i)
    decreases |text| - from
  {
    if from + |pattern| <= |text| && !OccursAt(text, pattern, from) {
      FindFirst(text, pattern, from + 1);
    }
  }

  lemma {:induction false} FindIs(text: string, pattern: string, from: nat, e: nat)
    requires from <= e && OccursAt(text, pattern, e)
    requires forall i: nat :: from <= i < e ==> !OccursAt(text, pattern, i)
    ensures Find(text, pattern, from) == Some(e)
    decreases e - from
  {
    if from < e {
      FindIs(text, pattern, from + 1, e);
    }
  }

  /** One match of the token pattern: where it starts, its identifier, and where its display and it end. */
  datatype Match = Match(start: nat, id: string, displayEnd: nat, end: nat)

  /** Does an opening token with a well-formed identifier start at `s`? */
  predicate OpensAt(text: string, s: nat) {
    s + 21 <= |text| && IsLinkId(text[s + 12..s + 19]) && OccursAt(text, OpenToken(text[s + 12..s + 19]), s)
  }

  function Close(text: string, s: nat, id: string): (m: Option<Match>)
    ensures m.Some? && |id| == 7 ==> s + 21 <= m.value.displayEnd < m.value.end <= |text| && m.value.start == s
  {
    match Find(text, CloseToken(id), s + 21)
    case None => None
    case Some(e) => Some(Match(s, id, e, e + |CloseToken(id)|))
  }

  /** The pattern tried at one position: the non-greedy display ends at the first matching close token. */
  function MatchAt(text: string, s: nat): (m: Option<Match>)
    ensures m.Some? ==> s + 21 <= m.value.displayEnd < m.value.end <= |text| && m.value.start == s
  {
    if OpensAt(text, s) then Close(text, s, text[s + 12..s + 19]) else None
  }

  /** The leftmost match at or after `from`, as `finditer` reports it. */
  function NextMatch(text: string, from: nat): (m: Option<Match>)
    ensures m.Some? ==> from <= m.value.start && m.value.start + 21 <= m.value.displayEnd < m.value.end <= |text|
    decreases |text| - from
  {
    if from >= |text| then None
    else if MatchAt(text, from).Some? then MatchAt(text, from)
    else NextMatch(text, from + 1)
  }

  lemma {:induction false} NextMatchIs(text: string, from: nat, s: nat)
    requires from <= s < |text| && MatchAt(text, s).Some?
    requires forall i: nat :: from <= i < s ==> MatchAt(text, i).None?
    ensures NextMatch(text, from) == MatchAt(text, s)
    decreases s - from
  {
    if from < s {
      NextMatchIs(text, from + 1, s);
    }
  }

  lemma {:induction false} NoNextMatch(text: string, from: nat)
    requires forall i: nat :: from <= i ==> MatchAt(text, i).None?
    ensures NextMatch(text, from).None?
    decreases |text| - from
  {
    if from < |text| {
      NoNextMatch(text, from + 1);
    }
  }

  lemma {:induction false} NextMatchMatches(text: string, from: nat)
    requires NextMatch(text, from).Some?
    ensures NextMatch(text, from) == MatchAt(text, NextMatch(text, from).value.start)
    decreases |text| - from
  {
    if MatchAt(text, from).None? {
      NextMatchMatches(text, from + 1);
    }
  }

  // ----- parser and printer -----

  /** `_link_parts` from `position` on; None stands for the malformed-token error. */
  ghost function ParseFrom(text: string, position: nat): (r: Option<Parts>)
    requires position <= |text|
    ensures r.Some? ==> |r.value.plain| == |r.value.links| + 1
    decreases |text| - position
  {
    match NextMatch(text, position)
    case None => if Free(text[position..]) then Some(Parts([text[position..]], [])) else None
    case Some(m) =>
      var plain, display := text[position..m.start], text[m.start + 21..m.displayEnd];
      if !Free(plain) || !Free(display) then None else
      match ParseFrom(text, m.end)
      case None => None
      case Some(rest) => Some(Parts([plain] + rest.plain, [(m.id, display)] + rest.links))
  }

  ghost function Parse(text: string): (r: Option<Parts>)
    ensures r.Some? ==> |r.value.plain| == |r.value.links| + 1
  {
    ParseFrom(text, 0)
  }

  function Token(link: (string, string)): string {
    OpenToken(link.0) + link.1 + CloseToken(link.0)
  }

  /** Embeds links as tokens between the plain stretches. */
  function Print(p: Parts): string
    requires |p.plain| == |p.links| + 1
    decreases |p.links|
  {
    if p.links == [] then p.plain[0]
    else p.plain[0] + Token(p.links[0]) + Print(Parts(p.plain[1..], p.links[1..]))
  }

  /** The parts extraction can produce: well-formed identifiers, no reserved text. */
  ghost predicate Clean(p: Parts) {
    && |p.plain| == |p.links| + 1
    && (forall i :: 0 <= i < |p.plain| ==> Free(p.plain[i]))
    && (forall i :: 0 <= i < |p.links| ==> IsLinkId(p.links[i].0) && Free(p.links[i].1))
  }

  /** The test both malformed-token checks make. */
  predicate Reserved(text: string)
    ensures Reserved(text) <==> !Free(text)
  {
    FindFirst(text, OPEN_PREFIX, 0);
    FindFirst(text, CLOSE_PREFIX, 0);
    Find(text, OPEN_PREFIX, 0).Some? || Find(text, CLOSE_PREFIX, 0).Some?
  }

  ghost function Prepend(plain: seq<string>, links: seq<(string, string)>, rest: Option<Parts>): Option<Parts> {
    match rest
    case None => None
    case Some(p) => Some(Parts(plain + p.plain, links + p.links))
  }

  lemma PrependStep(plain: seq<string>, links: seq<(string, string)>, text: string, position: nat)
    requires position <= |text| && NextMatch(text, position).Some?
    ensures var m := NextMatch(text, position).value;
            var before, display := text[position..m.start], text[m.start + 21..m.displayEnd];
            Prepend(plain, links, ParseFrom(text, position)) ==
            if Free(before) && Free(display)
            then Prepend(plain + [before], links + [(m.id, display)], ParseFrom(text, m.end)) else None
  {
    var m := NextMatch(text, position).value;
    var before, display := text[position..m.start], text[m.start + 21..m.displayEnd];
    var rest := ParseFrom(text, m.end);
    if rest.Some? {
      assert plain + ([before] + rest.value.plain) == plain + [before] + rest.value.plain;
      assert links + ([(m.id, display)] + rest.value.links) == links + [(m.id, display)] + rest.value.links;
    }
  }

  lemma PrependEnds(plain: seq<string>, links: seq<(string, string)>, text: string, position: nat)
    requires position <= |text| && NextMatch(text, position).None?
    ensures Prepend(plain, links, ParseFrom(text, position)) ==
            if Free(text[position..]) then Some(Parts(plain + [text[position..]], links)) else None
  {
    assert links + [] == links;
  }

  lemma PrependNothing(r: Option<Parts>)
    ensures Prepend([], [], r) == r
  {
    if r.Some? {
      assert [] + r.value.plain == r.value.plain && [] + r.value.links == r.value.links;
    }
  }

  /** The scanning loop of `_link_parts`. */
  method LinkParts(text: string) returns (r: Option<Parts>)
    ensures r == Parse(text)
  {
    hide ParseFrom, NextMatch;
    var plain: seq<string> := [];
    var links: seq<(string, string)> := [];
    var position: nat := 0;
    var next := NextMatch(text, position);
    PrependNothing(Parse(text));
    while next.Some?
      invariant position <= |text|
      invariant next == NextMatch(text, position)
      invariant Parse(text) == Prepend(plain, links, ParseFrom(text, position))
      decreases |text| - position
    {
      var m := next.value;
      PrependStep(plain, links, text, position);
      var before := text[position..m.start];
      if Reserved(before) {
        return None;
      }
      var display := text[m.start + 21..m.displayEnd];
      if Reserved(display) {
        return None;
      }
      plain := plain + [before];
      links := links + [(m.id, display)];
      position := m.end;
      next := NextMatch(text, position);
    }
    PrependEnds(plain, links, text, position);
    var tail := text[position..];
    if Reserved(tail) {
      return None;
    }
    return Some(Parts(plain + [tail], links));
  }

  // ----- printing what was parsed -----

  /** A parsed text is the print of its parts, and the parts are clean. */
  lemma PrintOfParse(text: string)
    requires Parse(text).Some?
    ensures Clean(Parse(text).value) && Print(Parse(text).value) == text
  {
    PrintOfParseFrom(text, 0);
  }

  lemma {:induction false} PrintOfParseFrom(text: string, position: nat)
    requires position <= |text|
    requires ParseFrom(text, position).Some?
    ensures Clean(ParseFrom(text, position).value)
    ensures Print(ParseFrom(text, position).value) == text[position..]
    decreases |text| - position
  {
    hide NextMatch, MatchAt, Contains, IsLinkId, OpenToken, CloseToken;
    var next := NextMatch(text, position);
    if next.Some? {
      var m := next.value;
      NextMatchMatches(text, position);
      MatchIsToken(text, m);
      PrintOfParseFrom(text, m.end);
      var rest := ParseFrom(text, m.end).value;
      var whole := ParseFrom(text, position).value;
      assert whole.plain[1..] == rest.plain && whole.links[1..] == rest.links;
      assert Token(whole.links[0]) == text[m.start..m.end];
      assert text[position..] == text[position..m.start] + text[m.start..m.end] + text[m.end..];
    }
  }

  /** The matched text is the token of its identifier and display. */
  lemma MatchIsToken(text: string, m: Match)
    requires m.start + 21 <= m.displayEnd && MatchAt(text, m.start) == Some(m)
    ensures IsLinkId(m.id) && Token((m.id, text[m.start + 21..m.displayEnd])) == text[m.start..m.end]
  {
    FindFirst(text, CloseToken(m.id), m.start + 21);
    Join3(text, m.start, m.start + 21, m.displayEnd, m.end);
  }

  lemma Join3(text: string, a: nat, b: nat, c: nat, d: nat)
    requires a <= b <= c <= d <= |text|
    ensures text[a..b] + text[b..c] + text[c..d] == text[a..d]
  {
  }

  // ----- parsing what was printed -----

  /** A reserved prefix cannot straddle the start of a token: both prefixes have no border with `{{`. */
  lemma NoStraddle(head: string, rest: string, prefix: string, i: nat)
    requires prefix == OPEN_PREFIX || prefix == CLOSE_PREFIX
    requires !Contains(head, prefix)
    requires |rest| >= 2 && rest[0] == '{' && rest[1] == '{'
    requires i < |head|
    ensures !OccursAt(head + rest, prefix, i)
  {
    var text := head + rest;
    if i + |prefix| <= |head| {
      assert head[i..i + |prefix|] == text[i..i + |prefix|];
      assert !OccursAt(head, prefix, i);
    } else if i + |prefix| <= |text| {
      var k, w := |head| - i, text[i..i + |prefix|];
      assert w[k] == rest[0];
      assert k == 1 ==> w[2] == rest[1];
      assert prefix[k] == '{' ==> k == 1;
    }
  }

  lemma OpenNeedsPrefix(text: string, s: nat)
    requires OpensAt(text, s)
    ensures OccursAt(text, OPEN_PREFIX, s)
  {
    var id := text[s + 12..s + 19];
    assert OpenToken(id)[..12] == OPEN_PREFIX;
    assert text[s..s + 12] == text[s..s + 21][..12];
  }

  lemma CloseNeedsPrefix(text: string, id: string, e: nat)
    requires OccursAt(text, CloseToken(id), e)
    ensures OccursAt(text, CLOSE_PREFIX, e)
  {
    assert CloseToken(id)[..13] == CLOSE_PREFIX;
    assert text[e..e + 13] == text[e..e + |CloseToken(id)|][..13];
  }

  lemma TokenOpens(text: string, s: nat, id: string, tail: string)
    requires s <= |text| && text[s..] == OpenToken(id) + tail
    requires IsLinkId(id)
    ensures OpensAt(text, s) && text[s + 12..s + 19] == id
  {
    assert text[s..s + 21] == text[s..][..21] == OpenToken(id);
    assert text[s + 12..s + 19] == text[s..][12..19] == OpenToken(id)[12..19] == id;
  }

  /** The display ends where its own close token starts, and not before. */
  lemma CloseFound(text: string, from: nat, display: string, id: string, tail: string)
    requires from <= |text| && text[from..] == display + (CloseToken(id) + tail)
    requires Free(display) && IsLinkId(id)
    ensures Find(text, CloseToken(id), from) == Some(from + |display|)
  {
    var e := from + |display|;
    assert OccursAt(text, CloseToken(id), e) by {
      assert text[e..e + 22] == text[from..][|display|..|display| + 22] == CloseToken(id);
    }
    forall i: nat | from <= i < e
      ensures !OccursAt(text, CloseToken(id), i)
    {
      NoStraddle(display, CloseToken(id) + tail, CLOSE_PREFIX, i - from);
      if OccursAt(text, CloseToken(id), i) {
        CloseNeedsPrefix(text, id, i);
        ShiftOccurs(text, from, CLOSE_PREFIX, i);
      }
    }
    FindIs(text, CloseToken(id), from, e);
  }

  lemma ShiftOccurs(text: string, from: nat, pattern: string, i: nat)
    requires from <= i && from <= |text|
    ensures OccursAt(text[from..], pattern, i - from) == OccursAt(text, pattern, i)
  {
    if i + |pattern| <= |text| {
      assert text[from..][i - from..i - from + |pattern|] == text[i..i + |pattern|];
    }
  }

  lemma NoMatchBefore(text: string, from: nat, plain: string, after: string)
    requires from <= |text| && text[from..] == plain + after
    requires Free(plain)
    requires |after| >= 2 && after[0] == '{' && after[1] == '{'
    ensures forall i: nat :: from <= i < from + |plain| ==> MatchAt(text, i).None?
  {
    forall i: nat | from <= i < from + |plain|
      ensures MatchAt(text, i).None?
    {
      NoStraddle(plain, after, OPEN_PREFIX, i - from);
      ShiftOccurs(text, from, OPEN_PREFIX, i);
      if OpensAt(text, i) {
        OpenNeedsPrefix(text, i);
      }
    }
  }

  /** Where the five pieces of a text's suffix lie. */
  lemma Pieces(text: string, from: nat, plain: string, open: string, display: string, close: string, rest: string)
    requires from <= |text|
    requires text[from..] == plain + (open + (display + (close + rest)))
    ensures var s := from + |plain|;
            var d := s + |open|;
            var e := d + |display|;
            && e + |close| <= |text|
            && text[from..s] == plain && text[s..] == open + (display + (close + rest))
            && text[d..e] == display && text[d..] == display + (close + rest)
            && text[e + |close|..] == rest
  {
    CutOff(text, from, plain, open + (display + (close + rest)));
    CutOff(text, from + |plain|, open, display + (close + rest));
    CutOff(text, from + |plain| + |open|, display, close + rest);
    CutOff(text, from + |plain| + |open| + |display|, close, rest);
  }

  lemma CutOff(text: string, from: nat, head: string, tail: string)
    requires from <= |text| && text[from..] == head + tail
    ensures from + |head| <= |text| && text[from..from + |head|] == head && text[from + |head|..] == tail
  {
    var suffix := text[from..];
    assert suffix[..|head|] == head && suffix[|head|..] == tail;
  }

  lemma MatchHere(text: string, from: nat, s: nat, id: string, e: nat)
    requires from <= s < |text| && |id| == 7 && OpensAt(text, s) && text[s + 12..s + 19] == id
    requires s + 21 <= e && Find(text, CloseToken(id), s + 21) == Some(e)
    requires forall i: nat :: from <= i < s ==> MatchAt(text, i).None?
    ensures NextMatch(text, from) == Some(Match(s, id, e, e + 22))
  {
    NextMatchIs(text, from, s);
  }

  /** The first match in a print is its first token, wherever the plain text before it ends. */
  lemma FirstMatch(text: string, from: nat, plain: string, id: string, display: string, rest: string)
    requires from <= |text|
    requires text[from..] == plain + (OpenToken(id) + (display + (CloseToken(id) + rest)))
    requires Free(plain) && Free(display) && IsLinkId(id)
    ensures var s := from + |plain|;
            NextMatch(text, from) == Some(Match(s, id, s + 21 + |display|, s + 21 + |display| + 22))
  {
    hide Free, NextMatch, Find, OpensAt, OccursAt, IsLinkId;
    var s, open, close := from + |plain|, OpenToken(id), CloseToken(id);
    Pieces(text, from, plain, open, display, close, rest);
    TokenOpens(text, s, id, display + (close + rest));
    CloseFound(text, s + 21, display, id, rest);
    NoMatchBefore(text, from, plain, open + (display + (close + rest)));
    MatchHere(text, from, s, id, s + 21 + |display|);
  }

  lemma NoMatchInFree(text: string, from: nat)
    requires from <= |text| && Free(text[from..])
    ensures NextMatch(text, from).None?
  {
    forall s: nat | from <= s
      ensures MatchAt(text, s).None?
    {
      ShiftOccurs(text, from, OPEN_PREFIX, s);
      assert !OccursAt(text[from..], OPEN_PREFIX, s - from);
      if OpensAt(text, s) {
        OpenNeedsPrefix(text, s);
      }
    }
    NoNextMatch(text, from);
  }

  lemma PrintStep(p: Parts)
    requires |p.plain| == |p.links| + 1 && p.links != []
    ensures var (id, display) := p.links[0];
            var rest := Print(Parts(p.plain[1..], p.links[1..]));
            Print(p) == p.plain[0] + (OpenToken(id) + (display + (CloseToken(id) + rest)))
  {
    var (id, display) := p.links[0];
    Reassociate(p.plain[0], OpenToken(id), display, CloseToken(id), Print(Parts(p.plain[1..], p.links[1..])));
  }

  lemma Reassociate(a: string, b: string, c: string, d: string, e: string)
    ensures a + (b + c + d) + e == a + (b + (c + (d + e)))
  {
  }

  lemma {:induction false} ParseFromOfPrint(text: string, from: nat, p: Parts)
    requires Clean(p) && from <= |text| && text[from..] == Print(p)
    ensures ParseFrom(text, from) == Some(p)
    decreases |p.links|
  {
    hide Free, NextMatch, ParseFrom, OpenToken, CloseToken, IsDigits;
    if p.links == [] {
      ParseEnds(text, from, p);
    } else {
      var plain, id, display := p.plain[0], p.links[0].0, p.links[0].1;
      var tail := Parts(p.plain[1..], p.links[1..]);
      var rest := Print(tail);
      PrintStep(p);
      Pieces(text, from, plain, OpenToken(id), display, CloseToken(id), rest);
      FirstMatch(text, from, plain, id, display, rest);
      ParseFromOfPrint(text, from + |plain| + 21 + |display| + 22, tail);
      ParseStep(text, from, p, from + |plain|);
    }
  }

  lemma ParseEnds(text: string, from: nat, p: Parts)
    requires Clean(p) && p.links == [] && from <= |text| && text[from..] == p.plain[0]
    ensures ParseFrom(text, from) == Some(p)
  {
    NoMatchInFree(text, from);
    assert p.plain == [p.plain[0]];
  }

  lemma ParseStep(text: string, from: nat, p: Parts, s: nat)
    requires Clean(p) && p.links != [] && from <= s <= |text|
    requires NextMatch(text, from) ==
             Some(Match(s, p.links[0].0, s + 21 + |p.links[0].1|, s + 21 + |p.links[0].1| + 22))
    requires text[from..s] == p.plain[0] && text[s + 21..s + 21 + |p.links[0].1|] == p.links[0].1
    requires ParseFrom(text, s + 21 + |p.links[0].1| + 22) == Some(Parts(p.plain[1..], p.links[1..]))
    ensures ParseFrom(text, from) == Some(p)
  {
    hide NextMatch, IsLinkId, Contains;
    assert [p.plain[0]] + p.plain[1..] == p.plain && [p.links[0]] + p.links[1..] == p.links;
  }

  /** Clean parts come back unchanged, whatever partial braces or token text they end in. */
  lemma ParseOfPrint(p: Parts)
    requires Clean(p)
    ensures Parse(Print(p)) == Some(p)
  {
    assert Print(p)[0..] == Print(p);
    ParseFromOfPrint(Print(p), 0, p);
  }

  /** Parse and Print are a bijection between parseable texts and clean parts. */
  lemma TokenBijection(text: string, p: Parts)
    ensures Parse(text) == Some(p) <==> Clean(p) && Print(p) == text
  {
    if Parse(text) == Some(p) {
      PrintOfParse(text);
    }
    if Clean(p) && Print(p) == text {
      ParseOfPrint(p);
    }
  }
}
