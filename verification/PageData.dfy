/** JSON texts (RFC 8259, sections 2 to 7) and what the extractor makes of a page that contains one. */
module PageData {
  import opened AuctionTypes
  import opened Extractor

  /** A character of a string, as section 7 of RFC 8259 allows it to be written. */
  datatype Piece = Plain(c: char) | Escaped(c: char) | CodeUnit(hex: string)

  /** A value with all its insignificant whitespace. `Token` stands for numbers, `true`, `false` and `null`. */
  datatype Json =
    | Token(text: string)
    | Str(pieces: seq<Piece>)
    | Arr(pad: string, elements: seq<Element>)
    | Obj(pad: string, members: seq<Member>)

  datatype Element = Element(before: string, value: Json, after: string)

  datatype Member = Member(before: string, name: seq<Piece>, beforeColon: string, afterColon: string, value: Json,
                           after: string)

  predicate IsWhitespace(s: string) {
    forall k :: 0 <= k < |s| ==> s[k] == ' ' || s[k] == '\t' || s[k] == '\n' || s[k] == '\r'
  }

  predicate IsHexDigit(c: char) {
    '0' <= c <= '9' || 'a' <= c <= 'f' || 'A' <= c <= 'F'
  }

  predicate IsNumberChar(c: char) {
    '0' <= c <= '9' || c == '-' || c == '+' || c == '.' || c == 'e' || c == 'E'
  }

  predicate WellFormedPiece(p: Piece) {
    match p
    case Plain(c) => ' ' <= c && c != '"' && c != '\\'
    case Escaped(c) => c in {'"', '\\', '/', 'b', 'f', 'n', 'r', 't'}
    case CodeUnit(hex) => |hex| == 4 && forall k :: 0 <= k < 4 ==> IsHexDigit(hex[k])
  }

  predicate WellFormedString(ps: seq<Piece>) {
    forall p :: p in ps ==> WellFormedPiece(p)
  }

  /** Every RFC 8259 number is a text over these characters. */
  predicate WellFormedToken(text: string) {
    || text in {"true", "false", "null"}
    || (text != [] && forall k :: 0 <= k < |text| ==> IsNumberChar(text[k]))
  }

  predicate WellFormed(v: Json) {
    match v
    case Token(text) => WellFormedToken(text)
    case Str(ps) => WellFormedString(ps)
    case Arr(pad, es) =>
      && IsWhitespace(pad)
      && forall e :: e in es ==> IsWhitespace(e.before) && WellFormed(e.value) && IsWhitespace(e.after)
    case Obj(pad, ms) =>
      && IsWhitespace(pad)
      && forall m :: m in ms ==>
           && IsWhitespace(m.before) && WellFormedString(m.name) && IsWhitespace(m.beforeColon)
           && IsWhitespace(m.afterColon) && WellFormed(m.value) && IsWhitespace(m.after)
  }

  function WritePiece(p: Piece): string {
    match p
    case Plain(c) => [c]
    case Escaped(c) => ['\\', c]
    case CodeUnit(hex) => ['\\', 'u'] + hex
  }

  function WritePieces(ps: seq<Piece>): string {
    if ps == [] then [] else WritePiece(ps[0]) + WritePieces(ps[1..])
  }

  function WriteString(ps: seq<Piece>): string { "\"" + WritePieces(ps) + "\"" }

  function Serialize(v: Json): string
    decreases v, 1
  {
    match v
    case Token(text) => text
    case Str(ps) => WriteString(ps)
    case Arr(pad, es) => "[" + (if es == [] then pad else WriteElements(es)) + "]"
    case Obj(pad, ms) => "{" + Body(v) + "}"
  }

  /** What stands between the braces of an object. */
  function Body(v: Json): string
    requires v.Obj?
    decreases v, 0
  {
    if v.members == [] then v.pad else WriteMembers(v.members)
  }

  function WriteElements(es: seq<Element>): string
    requires es != []
    decreases es
  {
    es[0].before + Serialize(es[0].value) + es[0].after
    + if |es| == 1 then [] else "," + WriteElements(es[1..])
  }

  function WriteMembers(ms: seq<Member>): string
    requires ms != []
    decreases ms
  {
    ms[0].before + WriteString(ms[0].name) + ms[0].beforeColon + ":" + ms[0].afterColon
    + Serialize(ms[0].value) + ms[0].after
    + if |ms| == 1 then [] else "," + WriteMembers(ms[1..])
  }

  // ---------------------------------------------------------------- what the scanner does on such texts

  /** Read outside a string, `text` leaves the scanner where it was and never below the depth it began at. */
  ghost predicate Neutral(text: string) {
    forall depth :: Rises(depth, text) && FeedAll(Outside(depth), text) == Outside(depth)
  }

  ghost predicate Rises(depth: int, text: string) {
    forall n :: 0 <= n <= |text| ==> FeedAll(Outside(depth), text[..n]).depth >= depth
  }

  lemma NeutralAppend(a: string, b: string)
    requires Neutral(a) && Neutral(b)
    ensures Neutral(a + b)
  {
    forall depth
      ensures Rises(depth, a + b) && FeedAll(Outside(depth), a + b) == Outside(depth)
    {
      assert Rises(depth, a) && Rises(depth, b);
      FeedAppend(Outside(depth), a, b);
      forall n | 0 <= n <= |a + b|
        ensures FeedAll(Outside(depth), (a + b)[..n]).depth >= depth
      {
        if n <= |a| {
          assert (a + b)[..n] == a[..n];
        } else {
          assert (a + b)[..n] == a + b[..n - |a|];
          FeedAppend(Outside(depth), a, b[..n - |a|]);
        }
      }
    }
  }

  lemma {:induction false} NeutralChars(text: string)
    requires forall k :: 0 <= k < |text| ==> text[k] != '"' && text[k] != '{' && text[k] != '}'
    ensures Neutral(text)
  {
    if text == [] {
      assert forall depth :: FeedAll(Outside(depth), text) == Outside(depth);
      assert forall n :: 0 <= n <= |text| ==> text[..n] == [];
    } else {
      var head, tail := text[..1], text[1..];
      NeutralChars(tail);
      assert text == head + tail;
      forall depth
        ensures Rises(depth, head) && FeedAll(Outside(depth), head) == Outside(depth)
      {
        assert Feed(Outside(depth), text[0]) == Outside(depth);
        assert head[1..] == [] && head[..0] == [] && head[..1] == head;
        assert FeedAll(Outside(depth), head) == FeedAll(Outside(depth), []);
        assert forall n :: 0 <= n <= |head| ==> head[..n] == [] || head[..n] == head;
      }
      NeutralAppend(head, tail);
    }
  }

  function InString(depth: int): Scan { Scan(depth, true, false) }

  lemma FeedFirst(s: Scan, c: char, rest: string)
    ensures FeedAll(s, [c] + rest) == FeedAll(Feed(s, c), rest)
  {
    assert ([c] + rest)[1..] == rest;
  }

  ghost predicate StaysInside(depth: int, text: string) {
    var s := FeedAll(InString(depth), text);
    s.inString && s.depth == depth
  }

  lemma {:induction false} HexStaysInside(depth: int, hex: string)
    requires forall k :: 0 <= k < |hex| ==> hex[k] != '"' && hex[k] != '\\'
    ensures FeedAll(InString(depth), hex) == InString(depth)
  {
    if hex != [] {
      HexStaysInside(depth, hex[1..]);
    }
  }

  /** No written character of a string ends the literal, wherever it is cut. */
  lemma PieceStaysInside(depth: int, p: Piece, n: nat)
    requires WellFormedPiece(p) && n <= |WritePiece(p)|
    ensures StaysInside(depth, WritePiece(p)[..n])
    ensures FeedAll(InString(depth), WritePiece(p)) == InString(depth)
  {
    var s, text := InString(depth), WritePiece(p);
    var t := Feed(s, '\\');
    match p
    case Plain(c) =>
      FeedFirst(s, c, []);
      assert text == [c] + [];
      assert text[..n] == if n == 0 then [] else text;
    case Escaped(c) =>
      FeedFirst(s, '\\', [c]);
      FeedFirst(s, '\\', []);
      FeedFirst(t, c, []);
      assert text == ['\\'] + [c] && [c] == [c] + [];
      assert text[..n] == if n == 0 then [] else if n == 1 then ['\\'] + [] else text;
    case CodeUnit(hex) =>
      FeedFirst(s, '\\', []);
      FeedFirst(s, '\\', ['u'] + hex);
      FeedFirst(t, 'u', hex);
      assert text == ['\\'] + (['u'] + hex);
      HexStaysInside(depth, hex);
      if n >= 2 {
        FeedFirst(s, '\\', ['u'] + hex[..n - 2]);
        FeedFirst(t, 'u', hex[..n - 2]);
        HexStaysInside(depth, hex[..n - 2]);
        assert text[..n] == ['\\'] + (['u'] + hex[..n - 2]);
      } else {
        assert text[..n] == if n == 0 then [] else ['\\'] + [];
      }
  }

  lemma {:induction false} PiecesStayInside(depth: int, ps: seq<Piece>, n: nat)
    requires WellFormedString(ps) && n <= |WritePieces(ps)|
    ensures StaysInside(depth, WritePieces(ps)[..n])
    ensures FeedAll(InString(depth), WritePieces(ps)) == InString(depth)
    decreases |ps|
  {
    if ps != [] {
      var head, tail := WritePiece(ps[0]), WritePieces(ps[1..]);
      assert WritePieces(ps) == head + tail;
      PieceStaysInside(depth, ps[0], if n <= |head| then n else |head|);
      PiecesStayInside(depth, ps[1..], if n <= |head| then 0 else n - |head|);
      FeedAppend(InString(depth), head, tail);
      if n <= |head| {
        assert (head + tail)[..n] == head[..n];
      } else {
        assert (head + tail)[..n] == head + tail[..n - |head|];
        FeedAppend(InString(depth), head, tail[..n - |head|]);
      }
    }
  }

  lemma StringIsNeutral(ps: seq<Piece>)
    requires WellFormedString(ps)
    ensures Neutral(WriteString(ps))
  {
    var body, text := WritePieces(ps), WriteString(ps);
    forall depth
      ensures Rises(depth, text) && FeedAll(Outside(depth), text) == Outside(depth)
    {
      assert Feed(Outside(depth), '"') == InString(depth);
      PiecesStayInside(depth, ps, 0);
      FeedFirst(Outside(depth), '"', body + ['"']);
      FeedAppend(InString(depth), body, ['"']);
      FeedFirst(InString(depth), '"', []);
      assert text == ['"'] + (body + ['"']) && ['"'] == ['"'] + [];
      forall n | 0 <= n <= |text|
        ensures FeedAll(Outside(depth), text[..n]).depth >= depth
      {
        if n == |text| {
          assert text[..n] == text;
        } else if n > 0 {
          assert text[..n] == ['"'] + body[..n - 1];
          FeedFirst(Outside(depth), '"', body[..n - 1]);
          PiecesStayInside(depth, ps, n - 1);
        }
      }
    }
  }

  lemma BracesAreNeutral(inner: string)
    requires Neutral(inner)
    ensures Neutral("{" + inner + "}")
  {
    var text := "{" + inner + "}";
    forall depth
      ensures Rises(depth, text) && FeedAll(Outside(depth), text) == Outside(depth)
    {
      ReadBraces(depth, inner);
      forall n | 0 <= n <= |text|
        ensures FeedAll(Outside(depth), text[..n]).depth >= depth
      {
        if n == |text| {
          assert text[..n] == text;
        }
      }
    }
  }

  /** Between its braces an object is read at a greater depth, which the closing brace ends. */
  lemma ReadBraces(depth: int, inner: string)
    requires Neutral(inner)
    ensures
      var text := "{" + inner + "}";
      && FeedAll(Outside(depth), text) == Outside(depth)
      && forall n :: 0 < n < |text| ==> FeedAll(Outside(depth), text[..n]).depth > depth
  {
    var text := "{" + inner + "}";
    assert Rises(depth + 1, inner);
    assert Feed(Outside(depth), '{') == Outside(depth + 1);
    FeedFirst(Outside(depth), '{', inner + ['}']);
    FeedAppend(Outside(depth + 1), inner, ['}']);
    FeedFirst(Outside(depth + 1), '}', []);
    assert text == ['{'] + (inner + ['}']) && ['}'] == ['}'] + [];
    forall n | 0 < n < |text|
      ensures FeedAll(Outside(depth), text[..n]).depth > depth
    {
      assert text[..n] == ['{'] + inner[..n - 1];
      FeedFirst(Outside(depth), '{', inner[..n - 1]);
    }
  }

  lemma WhitespaceIsNeutral(pad: string)
    requires IsWhitespace(pad)
    ensures Neutral(pad)
  {
    NeutralChars(pad);
  }

  /** Any serialized value, however nested, leaves the scanner as it found it. */
  lemma {:induction false} ValueIsNeutral(v: Json)
    requires WellFormed(v)
    ensures Neutral(Serialize(v))
    decreases v, 1
  {
    match v
    case Token(text) => NeutralChars(text);
    case Str(ps) => StringIsNeutral(ps);
    case Arr(pad, es) =>
      var inner := if es == [] then pad else WriteElements(es);
      if es == [] {
        WhitespaceIsNeutral(pad);
      } else {
        ElementsAreNeutral(es);
      }
      NeutralChars("[");
      NeutralChars("]");
      NeutralAppend("[", inner);
      NeutralAppend("[" + inner, "]");
    case Obj(pad, ms) =>
      BodyIsNeutral(v);
      BracesAreNeutral(Body(v));
  }

  lemma {:induction false} BodyIsNeutral(v: Json)
    requires WellFormed(v) && v.Obj?
    ensures Neutral(Body(v))
    decreases v, 0
  {
    if v.members == [] {
      WhitespaceIsNeutral(v.pad);
    } else {
      MembersAreNeutral(v.members);
    }
  }

  lemma {:induction false} ElementsAreNeutral(es: seq<Element>)
    requires es != []
    requires forall e :: e in es ==> IsWhitespace(e.before) && WellFormed(e.value) && IsWhitespace(e.after)
    ensures Neutral(WriteElements(es))
    decreases es
  {
    var e := es[0];
    WhitespaceIsNeutral(e.before);
    ValueIsNeutral(e.value);
    WhitespaceIsNeutral(e.after);
    NeutralAppend(e.before, Serialize(e.value));
    NeutralAppend(e.before + Serialize(e.value), e.after);
    var head := e.before + Serialize(e.value) + e.after;
    if |es| == 1 {
      assert WriteElements(es) == head;
    } else {
      ElementsAreNeutral(es[1..]);
      NeutralChars(",");
      NeutralAppend(",", WriteElements(es[1..]));
      NeutralAppend(head, "," + WriteElements(es[1..]));
    }
  }

  lemma {:induction false} MembersAreNeutral(ms: seq<Member>)
    requires ms != []
    requires forall m :: m in ms ==>
      && IsWhitespace(m.before) && WellFormedString(m.name) && IsWhitespace(m.beforeColon)
      && IsWhitespace(m.afterColon) && WellFormed(m.value) && IsWhitespace(m.after)
    ensures Neutral(WriteMembers(ms))
    decreases ms
  {
    var m := ms[0];
    WhitespaceIsNeutral(m.before);
    StringIsNeutral(m.name);
    WhitespaceIsNeutral(m.beforeColon);
    NeutralChars(":");
    WhitespaceIsNeutral(m.afterColon);
    ValueIsNeutral(m.value);
    WhitespaceIsNeutral(m.after);
    var a := m.before + WriteString(m.name);
    NeutralAppend(m.before, WriteString(m.name));
    NeutralAppend(a, m.beforeColon);
    NeutralAppend(a + m.beforeColon, ":");
    NeutralAppend(a + m.beforeColon + ":", m.afterColon);
    var b := a + m.beforeColon + ":" + m.afterColon;
    NeutralAppend(b, Serialize(m.value));
    NeutralAppend(b + Serialize(m.value), m.after);
    var head := b + Serialize(m.value) + m.after;
    if |ms| == 1 {
      assert WriteMembers(ms) == head;
    } else {
      MembersAreNeutral(ms[1..]);
      NeutralChars(",");
      NeutralAppend(",", WriteMembers(ms[1..]));
      NeutralAppend(head, "," + WriteMembers(ms[1..]));
    }
  }

  // ---------------------------------------------------------------- the main results

  /** Wherever a serialized object stands in a text, it is the shortest balanced stretch from its brace. */
  lemma ObjectIsShortestBalanced(pre: string, v: Json, post: string)
    requires WellFormed(v) && v.Obj?
    ensures ShortestBalanced(pre + Serialize(v) + post, |pre|, |pre| + |Serialize(v)|)
  {
    var text, obj, start := pre + Serialize(v) + post, Serialize(v), |pre|;
    BodyIsNeutral(v);
    ReadBraces(0, Body(v));
    assert text[start..start + |obj|] == obj;
    DepthIsBalance(0, obj);
    forall e | start < e < start + |obj|
      ensures Balance(text[start..e]) != 0
    {
      assert text[start..e] == obj[..e - start];
      DepthIsBalance(0, obj[..e - start]);
    }
  }

  /** Scanning from the brace of any serialized object of at most `MAX_OBJECT_LEN + 1` characters, between any
      texts, returns exactly that serialization; a longer one is refused. */
  lemma ScannerRecoversObject(pre: string, v: Json, post: string)
    requires WellFormed(v) && v.Obj?
    ensures BalancedObject(pre + Serialize(v) + post, |pre|)
         == if |Serialize(v)| <= 1_000_001 then Some(Serialize(v)) else None
  {
    var text, start, end := pre + Serialize(v) + post, |pre|, |pre| + |Serialize(v)|;
    ObjectIsShortestBalanced(pre, v, post);
    assert text[start..end] == Serialize(v);
    assert text[start..start] == [] && text[start] == Serialize(v)[0];
    EndIsLeast(text, start, start, end);
  }

  lemma FirstHit(pre: string, rest: string)
    requires forall i :: !OccursAt(pre, MARKERS[0], i)
    ensures Find(pre + MARKERS[0] + rest, MARKERS[0], 0, |pre + MARKERS[0] + rest|) == Some(|pre|)
  {
    var m := MARKERS[0];
    var html := pre + m + rest;
    MarkersHaveNoBorder(0);
    assert html[|pre|..|pre| + |m|] == m;
    FindSkipsNone(html, m, 0, |html|, |pre|);
    var found := Find(html, m, 0, |html|);
    if found.Some? && found.value < |pre| {
      OccurrencesDoNotOverlap(html, m, found.value, |pre|);
      assert pre[found.value..found.value + |m|] == html[found.value..found.value + |m|];
      assert OccursAt(pre, m, found.value);
    }
  }

  lemma {:induction false} BraceAfterGap(html: string, lo: nat, brace: nat, hi: nat)
    requires lo <= brace < hi <= |html| && html[brace] == '{'
    requires forall i :: lo <= i < brace ==> html[i] != '{'
    ensures FirstBrace(html, lo, hi) == Some(brace)
    decreases brace - lo
  {
    if lo < brace {
      BraceAfterGap(html, lo + 1, brace, hi);
    }
  }

  /** The first candidate of a page is the brace after its first `pageData`, if it is near enough. */
  lemma FirstCandidate(pre: string, gap: string, rest: string)
    requires forall i :: !OccursAt(pre, MARKERS[0], i)
    requires '{' !in gap && |gap| <= 191 && rest != "" && rest[0] == '{'
    ensures
      var candidates := Candidates(pre + MARKERS[0] + gap + rest);
      candidates != [] && candidates[0] == |pre| + |MARKERS[0]| + |gap|
  {
    var m := MARKERS[0];
    var html, brace := pre + m + gap + rest, |pre| + 8 + |gap|;
    FirstHit(pre, gap + rest);
    assert html == pre + m + (gap + rest);
    BraceAfterGap(html, |pre|, brace, Min(|pre| + 200, |html|));
    assert Hits(html, m, 0)[0] == |pre|;
    CandidatesAreBracesOfHits(html);
  }

  lemma FirstCandidateWins<D>(html: string, candidates: seq<nat>, obj: string, loads: string -> Loaded<D>, dict: D)
    requires candidates != [] && BalancedObject(html, candidates[0]) == Some(obj) && loads(obj) == Dict(dict)
    ensures FirstObject(html, candidates, loads) == Some(dict)
  {
  }

  /** A page with a first `pageData` that is followed, after at most 191 brace-free characters, by a
      serialized object gives that object, if `json.loads` reads it back. */
  lemma ExtractRecovers<D>(pre: string, gap: string, v: Json, post: string, loads: string -> Loaded<D>, dict: D)
    requires WellFormed(v) && v.Obj? && |Serialize(v)| <= 1_000_001
    requires forall i :: !OccursAt(pre, "pageData", i)
    requires '{' !in gap && |gap| <= 191
    requires loads(Serialize(v)) == Dict(dict)
    ensures
      var html := pre + "pageData" + gap + Serialize(v) + post;
      FirstObject(html, Candidates(html), loads) == Some(dict)
  {
    var before, obj := pre + MARKERS[0] + gap, Serialize(v);
    assert obj[0] == '{' && before == pre + "pageData" + gap;
    hide *;
    FirstCandidate(pre, gap, obj + post);
    assert before + (obj + post) == before + obj + post;
    ScannerRecoversObject(before, v, post);
    FirstCandidateWins(before + obj + post, Candidates(before + obj + post), obj, loads, dict);
  }
}
