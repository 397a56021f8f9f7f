/** The balanced-brace scanner and the search for the page's data object
    (app/providers/yahoo/extractor.py). */
module Extractor {
  import opened AuctionTypes

  const MAX_OBJECT_LEN: nat := 1_000_000

  // ---------------------------------------------------------------- what "balanced" means

  /** The index just after the string literal whose body starts at `i`, or the end of an unterminated one. */
  function StringEnd(text: string, i: nat): (end: nat)
    requires i <= |text|
    ensures i <= end <= |text|
    decreases |text| - i
  {
    if i == |text| then i
    else if text[i] == '\\' then (if i + 1 == |text| then i + 1 else StringEnd(text, i + 2))
    else if text[i] == '"' then i + 1
    else StringEnd(text, i + 1)
  }

  /** The text without its string literals. */
  function OutsideStrings(text: string): string
    decreases |text|
  {
    if text == [] then []
    else if text[0] == '"' then OutsideStrings(text[StringEnd(text, 1)..])
    else [text[0]] + OutsideStrings(text[1..])
  }

  function Weight(c: char): int {
    if c == '{' then 1 else if c == '}' then -1 else 0
  }

  function Sum(text: string): int {
    if text == [] then 0 else Weight(text[0]) + Sum(text[1..])
  }

  /** Opening less closing braces outside string literals. */
  function Balance(text: string): int {
    Sum(OutsideStrings(text))
  }

  /** `text[start..end]` is the shortest non-empty stretch from `start` whose braces outside strings balance. */
  ghost predicate ShortestBalanced(text: string, start: nat, end: nat) {
    && start < end <= |text|
    && Balance(text[start..end]) == 0
    && forall e :: start < e < end ==> Balance(text[start..e]) != 0
  }

  // ---------------------------------------------------------------- the scanner's state machine

  datatype Scan = Scan(depth: int, inString: bool, escaped: bool)

  function Feed(s: Scan, c: char): Scan {
    if s.inString then
      if s.escaped then s.(escaped := false)
      else if c == '\\' then s.(escaped := true)
      else if c == '"' then s.(inString := false)
      else s
    else if c == '"' then s.(inString := true)
    else s.(depth := s.depth + Weight(c))
  }

  function FeedAll(s: Scan, text: string): Scan
    decreases |text|
  {
    if text == [] then s else FeedAll(Feed(s, text[0]), text[1..])
  }

  /** The index after the closing brace that brings the depth back to 0, reading on from `i` in state `s`. */
  function EndFrom(text: string, i: nat, s: Scan): (end: Option<nat>)
    ensures end.Some? ==> i < end.value <= |text|
    decreases |text| - i
  {
    if i >= |text| then None
    else if !s.inString && text[i] == '}' && Feed(s, '}').depth == 0 then Some(i + 1)
    else EndFrom(text, i + 1, Feed(s, text[i]))
  }

  /** What `_extract_balanced_object` returns. */
  function BalancedObject(text: string, start: nat): (r: Option<string>)
    ensures r.Some? ==> start < |text| && text[start] == '{'
  {
    if start < |text| && text[start] == '{' then
      match EndFrom(text, start, Outside(0))
      case None => None
      case Some(end) => if end - 1 - start > MAX_OBJECT_LEN then None else Some(text[start..end])
    else None
  }

  function Outside(depth: int): Scan { Scan(depth, false, false) }

  lemma {:induction false} FeedAppend(s: Scan, a: string, b: string)
    ensures FeedAll(s, a + b) == FeedAll(FeedAll(s, a), b)
    decreases |a|
  {
    if a == [] {
      assert a + b == b;
    } else {
      assert (a + b)[1..] == a[1..] + b;
      FeedAppend(Feed(s, a[0]), a[1..], b);
    }
  }

  /** Inside a literal the depth is frozen, and the literal ends where `StringEnd` says. */
  lemma {:induction false} FeedLiteral(depth: int, text: string, i: nat)
    requires i <= |text|
    ensures FeedAll(Scan(depth, true, false), text[i..]).depth
         == FeedAll(Outside(depth), text[StringEnd(text, i)..]).depth
    decreases |text| - i
  {
    var s := Scan(depth, true, false);
    if i == |text| {
    } else if text[i] == '\\' {
      assert text[i..][1..] == text[i + 1..];
      if i + 1 < |text| {
        assert text[i + 1..][1..] == text[i + 2..];
        assert FeedAll(s, text[i..]) == FeedAll(Feed(s, '\\'), text[i + 1..]);
        assert FeedAll(Feed(s, '\\'), text[i + 1..]) == FeedAll(s, text[i + 2..]);
        FeedLiteral(depth, text, i + 2);
      } else {
        assert text[i + 1..] == [];
      }
    } else {
      assert text[i..][1..] == text[i + 1..];
      if text[i] != '"' {
        FeedLiteral(depth, text, i + 1);
      }
    }
  }

  /** The scanner's depth is the balance of what it has read. */
  lemma {:induction false} DepthIsBalance(depth: int, text: string)
    ensures FeedAll(Outside(depth), text).depth == depth + Balance(text)
    decreases |text|
  {
    if text == [] {
    } else if text[0] == '"' {
      FeedLiteral(depth, text, 1);
      DepthIsBalance(depth, text[StringEnd(text, 1)..]);
    } else {
      DepthIsBalance(depth + Weight(text[0]), text[1..]);
      var rest := OutsideStrings(text[1..]);
      assert ([text[0]] + rest)[1..] == rest;
    }
  }

  lemma ReadOne(text: string, start: nat, i: nat)
    requires start <= i < |text|
    ensures FeedAll(Outside(0), text[start..i + 1]) == Feed(FeedAll(Outside(0), text[start..i]), text[i])
    ensures FeedAll(Outside(0), text[start..i + 1]).depth == Balance(text[start..i + 1])
  {
    assert text[start..i + 1] == text[start..i] + [text[i]];
    FeedAppend(Outside(0), text[start..i], [text[i]]);
    var s := FeedAll(Outside(0), text[start..i]);
    assert FeedAll(s, [text[i]]) == FeedAll(Feed(s, text[i]), []);
    DepthIsBalance(0, text[start..i + 1]);
  }

  lemma {:induction false} EndIsLeast(text: string, start: nat, i: nat, end: nat)
    requires start <= i <= |text| && start < |text| && text[start] == '{'
    requires start < i ==> 1 <= FeedAll(Outside(0), text[start..i]).depth
    requires forall k :: start < k <= i ==> Balance(text[start..k]) != 0
    ensures EndFrom(text, i, FeedAll(Outside(0), text[start..i])) == Some(end)
       <==> i < end && ShortestBalanced(text, start, end)
    decreases |text| - i
  {
    if i < |text| {
      var s := FeedAll(Outside(0), text[start..i]);
      ReadOne(text, start, i);
      assert s.depth == 0 ==> text[start..i] == [];
      if !s.inString && text[i] == '}' && Feed(s, '}').depth == 0 {
        assert Balance(text[start..i + 1]) == 0;
      } else {
        EndIsLeast(text, start, i + 1, end);
      }
    }
  }

  /** From an opening brace, the scanner returns exactly the shortest stretch whose braces outside strings
      balance, if there is one of at most `MAX_OBJECT_LEN + 1` characters, and otherwise nothing. */
  lemma ScannerReturnsShortestBalanced(text: string, start: nat, raw: string)
    requires start < |text| && text[start] == '{'
    ensures BalancedObject(text, start) == Some(raw) <==>
      && |raw| <= MAX_OBJECT_LEN + 1
      && ShortestBalanced(text, start, start + |raw|) && raw == text[start..start + |raw|]
  {
    assert text[start..start] == [];
    EndIsLeast(text, start, start, start + |raw|);
    var end := EndFrom(text, start, Outside(0));
    if end.Some? {
      EndIsLeast(text, start, start, end.value);
    }
  }

  /** `_extract_balanced_object` */
  method ExtractBalancedObject(text: string, start: nat) returns (raw: Option<string>)
    ensures raw == BalancedObject(text, start)
  {
    if start >= |text| || text[start] != '{' {
      return None;
    }
    var depth, i, inString, escaped := 0, start, false, false;
    while i < |text|
      invariant start <= i <= |text|
      invariant EndFrom(text, start, Outside(0)) == EndFrom(text, i, Scan(depth, inString, escaped))
    {
      var ch := text[i];
      if inString {
        if escaped {
          escaped := false;
        } else if ch == '\\' {
          escaped := true;
        } else if ch == '"' {
          inString := false;
        }
      } else {
        if ch == '"' {
          inString := true;
        } else if ch == '{' {
          depth := depth + 1;
        } else if ch == '}' {
          depth := depth - 1;
          if depth == 0 {
            if i - start > MAX_OBJECT_LEN {
              return None;
            }
            return Some(text[start..i + 1]);
          }
        }
      }
      i := i + 1;
    }
    return None;
  }

  // ---------------------------------------------------------------- the candidate search

  const MARKERS: seq<string> := ["pageData", "PageData"]

  predicate OccursAt(html: string, sub: string, i: int) {
    0 <= i && i + |sub| <= |html| && html[i..i + |sub|] == sub
  }

  /** `html.find(sub, lo, hi)`, with `None` for -1. */
  function Find(html: string, sub: string, lo: nat, hi: nat): (r: Option<nat>)
    requires hi <= |html|
    ensures r.Some? ==> lo <= r.value && r.value + |sub| <= hi && OccursAt(html, sub, r.value)
    decreases if lo <= hi then hi - lo + 1 else 0
  {
    if lo + |sub| > hi then None
    else if OccursAt(html, sub, lo) then Some(lo)
    else Find(html, sub, lo + 1, hi)
  }

  /** `Find` passes over no occurrence. */
  lemma {:induction false} FindSkipsNone(html: string, sub: string, lo: nat, hi: nat, i: int)
    requires hi <= |html| && lo <= i && i + |sub| <= hi && OccursAt(html, sub, i)
    ensures Find(html, sub, lo, hi).Some? && Find(html, sub, lo, hi).value <= i
    decreases i - lo
  {
    if !OccursAt(html, sub, lo) {
      FindSkipsNone(html, sub, lo + 1, hi, i);
    }
  }

  function NextHit(html: string, marker: string, pos: nat): (hit: Option<nat>)
    requires marker != []
    ensures hit.Some? ==>
      && pos <= hit.value && hit.value + |marker| <= |html|
      && OccursAt(html, marker, hit.value) && html[hit.value] == marker[0]
  {
    if pos > |html| then None
    else
      var hit := Find(html, marker, pos, |html|);
      assert hit.Some? ==> html[hit.value] == html[hit.value..hit.value + |marker|][0];
      hit
  }

  /** Successive hits of the search for a marker, each resumed after the previous hit. */
  function Hits(html: string, marker: string, pos: nat): seq<nat>
    requires marker != []
    decreases |html| + 1 - pos
  {
    match NextHit(html, marker, pos)
    case None => []
    case Some(idx) => [idx] + Hits(html, marker, idx + |marker|)
  }

  /** The opening brace within 200 characters of a hit: `html.find("{", idx, idx + 200)`. */
  function BraceNear(html: string, idx: nat): (r: Option<nat>)
    ensures r.Some? ==> idx <= r.value < |html| && r.value < idx + 200 && html[r.value] == '{'
  {
    FirstBrace(html, idx, Min(idx + 200, |html|))
  }

  function FirstBrace(html: string, lo: nat, hi: int): (r: Option<nat>)
    requires hi <= |html|
    ensures r.Some? ==> lo <= r.value < hi && html[r.value] == '{'
    decreases if lo <= hi then hi - lo else 0
  {
    if lo >= hi then None else if html[lo] == '{' then Some(lo) else FirstBrace(html, lo + 1, hi)
  }

  /** The brace that a hit leads to, as a list of at most one. */
  function BraceOf(html: string, hit: nat): seq<nat> {
    var brace := BraceNear(html, hit);
    if brace.Some? then [brace.value] else []
  }

  function Braces(html: string, hits: seq<nat>): seq<nat> {
    if hits == [] then [] else BraceOf(html, hits[0]) + Braces(html, hits[1..])
  }

  /** The search for one marker from `pos` on, after it has yielded `braces`. */
  function Yield(html: string, marker: string, pos: nat, braces: seq<nat>): seq<nat>
    requires marker != []
    decreases |html| + 1 - pos
  {
    match NextHit(html, marker, pos)
    case None => braces
    case Some(idx) => Yield(html, marker, idx + |marker|, braces + BraceOf(html, idx))
  }

  /** All candidates, in the order in which `_iter_candidates` yields them. */
  function Candidates(html: string): seq<nat> {
    Yield(html, MARKERS[1], 0, Yield(html, MARKERS[0], 0, []))
  }

  /** The search yields the braces of all hits, in order. */
  lemma {:induction false} YieldsBracesOfHits(html: string, marker: string, pos: nat, braces: seq<nat>)
    requires marker != []
    ensures Yield(html, marker, pos, braces) == braces + Braces(html, Hits(html, marker, pos))
    decreases |html| + 1 - pos
  {
    var hit := NextHit(html, marker, pos);
    if hit.Some? {
      var idx := hit.value;
      var rest := Hits(html, marker, idx + |marker|);
      YieldsBracesOfHits(html, marker, idx + |marker|, braces + BraceOf(html, idx));
      Regroup(braces, BraceOf(html, idx), Braces(html, rest));
      assert Hits(html, marker, pos)[1..] == rest;
    }
  }

  lemma Regroup(a: seq<nat>, b: seq<nat>, c: seq<nat>)
    ensures a + (b + c) == (a + b) + c
  {
  }

  lemma TwoSearches(html: string, first: string, second: string)
    requires first != [] && second != []
    ensures Yield(html, second, 0, Yield(html, first, 0, []))
         == Braces(html, Hits(html, first, 0)) + Braces(html, Hits(html, second, 0))
  {
    var a := Braces(html, Hits(html, first, 0));
    YieldsBracesOfHits(html, first, 0, []);
    assert [] + a == a;
    YieldsBracesOfHits(html, second, 0, a);
  }

  lemma CandidatesAreBracesOfHits(html: string)
    ensures Candidates(html) == Braces(html, Hits(html, "pageData", 0)) + Braces(html, Hits(html, "PageData", 0))
  {
    TwoSearches(html, "pageData", "PageData");
  }

  lemma {:induction false} FirstBraceIsFirst(html: string, lo: nat, hi: int)
    requires hi <= |html|
    ensures
      var r := FirstBrace(html, lo, hi);
      if r.Some? then lo <= r.value < hi && html[r.value] == '{' && '{' !in html[lo..r.value]
      else forall i :: lo <= i < hi ==> html[i] != '{'
    decreases if lo <= hi then hi - lo else 0
  {
    if lo < hi && html[lo] != '{' {
      FirstBraceIsFirst(html, lo + 1, hi);
    }
  }

  /** A hit leads to the first opening brace among the 200 characters from it, if there is one there. */
  lemma BraceOfIff(html: string, hit: nat, brace: nat)
    ensures BraceOf(html, hit) == [brace] <==>
      hit <= brace < |html| && brace < hit + 200 && html[brace] == '{' && '{' !in html[hit..brace]
    ensures BraceOf(html, hit) == [] <==> forall i :: hit <= i < |html| && i < hit + 200 ==> html[i] != '{'
  {
    FirstBraceIsFirst(html, hit, Min(hit + 200, |html|));
    var r := BraceNear(html, hit);
    if r.Some? && hit <= brace < |html| && html[brace] == '{' {
      NoBraceBetween(html, hit, r.value);
      if '{' !in html[hit..brace] {
        NoBraceBetween(html, hit, brace);
      }
    }
  }

  lemma NoBraceBetween(html: string, lo: nat, hi: nat)
    requires lo <= hi <= |html| && '{' !in html[lo..hi]
    ensures forall i :: lo <= i < hi ==> html[i] != '{'
  {
    assert forall i :: lo <= i < hi ==> html[i] == html[lo..hi][i - lo];
  }

  /** What `json.loads` yields: an object, another value, or `JSONDecodeError`. */
  datatype Loaded<D> = Dict(dict: D) | OtherValue | DecodeError

  /** The object that begins at a candidate, if any. */
  function ObjectAt<D>(html: string, start: nat, loads: string -> Loaded<D>): Option<D> {
    var raw := BalancedObject(html, start);
    if raw.Some? && loads(raw.value).Dict? then Some(loads(raw.value).dict) else None
  }

  /** The first object among the candidates, in order. */
  function FirstObject<D>(html: string, candidates: seq<nat>, loads: string -> Loaded<D>): Option<D> {
    if candidates == [] then None
    else
      var found := ObjectAt(html, candidates[0], loads);
      if found.Some? then found else FirstObject(html, candidates[1..], loads)
  }

  /** The text from `start` is balanced, and `json.loads` makes the object `d` of it. */
  ghost predicate Gives<D>(html: string, start: nat, loads: string -> Loaded<D>, d: D) {
    BalancedObject(html, start).Some? && loads(BalancedObject(html, start).value) == Dict(d)
  }

  /** The text from `start` gives no object: it is not balanced, or not JSON, or another value. */
  predicate GivesNothing<D>(html: string, start: nat, loads: string -> Loaded<D>) {
    BalancedObject(html, start).Some? ==> !loads(BalancedObject(html, start).value).Dict?
  }

  /** The first candidate that gives an object gives `d`. */
  ghost predicate FirstGives<D>(html: string, candidates: seq<nat>, loads: string -> Loaded<D>, d: D) {
    exists i :: 0 <= i < |candidates| && Gives(html, candidates[i], loads, d)
                && forall k :: 0 <= k < i ==> GivesNothing(html, candidates[k], loads)
  }

  /** A candidate that gives nothing does not end the search: the result is the object of the first one that gives
      any, and there is none exactly if no candidate does. */
  lemma {:induction false} FirstObjectIff<D(!new)>(html: string, candidates: seq<nat>, loads: string -> Loaded<D>)
    ensures forall d :: FirstObject(html, candidates, loads) == Some(d) <==> FirstGives(html, candidates, loads, d)
    ensures FirstObject(html, candidates, loads) == None <==>
      forall i :: 0 <= i < |candidates| ==> GivesNothing(html, candidates[i], loads)
  {
    if candidates != [] {
      var rest := candidates[1..];
      FirstObjectIff(html, rest, loads);
      hide BalancedObject;
      forall d
        ensures FirstObject(html, candidates, loads) == Some(d) <==> FirstGives(html, candidates, loads, d)
      {
        SkippedCandidate(html, candidates, loads, d);
      }
      assert forall i :: 0 < i < |candidates| ==> candidates[i] == rest[i - 1];
    }
  }

  lemma SkippedCandidate<D>(html: string, candidates: seq<nat>, loads: string -> Loaded<D>, d: D)
    requires candidates != []
    ensures FirstGives(html, candidates, loads, d) <==>
      || Gives(html, candidates[0], loads, d)
      || (GivesNothing(html, candidates[0], loads) && FirstGives(html, candidates[1..], loads, d))
  {
    hide BalancedObject;
    var rest := candidates[1..];
    if FirstGives(html, candidates, loads, d) && !Gives(html, candidates[0], loads, d) {
      var i :| 0 <= i < |candidates| && Gives(html, candidates[i], loads, d)
               && forall k :: 0 <= k < i ==> GivesNothing(html, candidates[k], loads);
      assert rest[i - 1] == candidates[i];
      assert forall k :: 0 <= k < i - 1 ==> rest[k] == candidates[k + 1];
    }
    if GivesNothing(html, candidates[0], loads) && FirstGives(html, rest, loads, d) {
      var i :| 0 <= i < |rest| && Gives(html, rest[i], loads, d)
               && forall k :: 0 <= k < i ==> GivesNothing(html, rest[k], loads);
      assert candidates[i + 1] == rest[i];
      assert forall k :: 0 < k < i + 1 ==> candidates[k] == rest[k - 1];
    }
  }

  /** A marker whose first character does not recur in it cannot overlap itself. */
  predicate NoBorder(marker: string) {
    marker != [] && forall k :: 0 < k < |marker| ==> marker[k] != marker[0]
  }

  lemma OccurrencesDoNotOverlap(html: string, marker: string, i: nat, j: nat)
    requires NoBorder(marker) && OccursAt(html, marker, i) && OccursAt(html, marker, j) && i < j
    ensures i + |marker| <= j
  {
    assert forall k :: 0 <= k < |marker| ==> html[i + k] == html[i..i + |marker|][k] == marker[k];
    assert html[j] == html[j..j + |marker|][0] == marker[0];
    assert html[j] == html[i + (j - i)];
  }

  lemma NextHitIsNextOccurrence(html: string, marker: string, pos: nat, i: nat)
    requires marker != [] && pos <= i && OccursAt(html, marker, i)
    ensures NextHit(html, marker, pos).Some? && NextHit(html, marker, pos).value <= i
  {
    FindSkipsNone(html, marker, pos, |html|, i);
  }

  lemma {:induction false} HitsAreOccurrences(html: string, marker: string, pos: nat)
    requires marker != []
    ensures forall b :: 0 <= b < |Hits(html, marker, pos)| ==>
      pos <= Hits(html, marker, pos)[b] && OccursAt(html, marker, Hits(html, marker, pos)[b])
    ensures forall a, b :: 0 <= a < b < |Hits(html, marker, pos)| ==>
      Hits(html, marker, pos)[a] < Hits(html, marker, pos)[b]
    decreases |html| + 1 - pos
  {
    var hit := NextHit(html, marker, pos);
    if hit.Some? {
      var rest := Hits(html, marker, hit.value + |marker|);
      HitsAreOccurrences(html, marker, hit.value + |marker|);
      assert Hits(html, marker, pos) == [hit.value] + rest;
    }
  }

  lemma {:induction false} EveryOccurrenceIsHit(html: string, marker: string, pos: nat, i: nat)
    requires NoBorder(marker) && pos <= i && OccursAt(html, marker, i)
    ensures i in Hits(html, marker, pos)
    decreases |html| + 1 - pos
  {
    NextHitIsNextOccurrence(html, marker, pos, i);
    var idx := NextHit(html, marker, pos).value;
    HitsGoOn(html, marker, pos, idx);
    hide *;
    if idx < i {
      OccurrencesDoNotOverlap(html, marker, idx, i);
      EveryOccurrenceIsHit(html, marker, idx + |marker|, i);
    }
  }

  lemma HitsGoOn(html: string, marker: string, pos: nat, idx: nat)
    requires marker != [] && NextHit(html, marker, pos) == Some(idx)
    ensures Hits(html, marker, pos) == [idx] + Hits(html, marker, idx + |marker|)
  {
  }

  /** The search for a marker without border visits its occurrences, all of them, each once, in order. */
  lemma HitsAreTheOccurrences(html: string, marker: string)
    requires NoBorder(marker)
    ensures forall i: nat :: i in Hits(html, marker, 0) <==> OccursAt(html, marker, i)
    ensures forall a, b :: 0 <= a < b < |Hits(html, marker, 0)| ==>
      Hits(html, marker, 0)[a] < Hits(html, marker, 0)[b]
  {
    HitsAreOccurrences(html, marker, 0);
    forall i: nat | OccursAt(html, marker, i)
      ensures i in Hits(html, marker, 0)
    {
      EveryOccurrenceIsHit(html, marker, 0, i);
    }
  }

  lemma MarkersHaveNoBorder(m: nat)
    requires m < 2
    ensures NoBorder(MARKERS[m]) && |MARKERS[m]| == 8
  {
  }

  /** The inner loop of the generator, for one marker; `seen` holds the hits of the markers before it, which
      begin with another character. */
  method YieldForMarker(html: string, marker: string, seen: set<nat>, before: seq<nat>)
    returns (braces: seq<nat>, seen': set<nat>)
    requires marker != [] && forall i :: i in seen ==> i < |html| && html[i] != marker[0]
    ensures braces == Yield(html, marker, 0, before)
    ensures forall i :: i in seen' ==> i in seen || (i < |html| && html[i] == marker[0])
  {
    hide NextHit, BraceNear, OccursAt;
    var pos := 0;
    braces, seen' := before, seen;
    while true
      invariant Yield(html, marker, 0, before) == Yield(html, marker, pos, braces)
      invariant forall i :: i in seen' ==> i in seen || (i < pos && i < |html| && html[i] == marker[0])
      decreases |html| + |marker| + 1 - pos
    {
      var hit := NextHit(html, marker, pos);
      if hit.None? {
        return;
      }
      var idx := hit.value;
      if idx !in seen' {
        seen' := seen' + {idx};
        var brace := BraceNear(html, idx);
        if brace.Some? {
          braces := braces + [brace.value];
        } else {
          assert braces + [] == braces;
        }
      }
      pos := idx + |marker|;
    }
  }

  /** `_iter_candidates`, yielding into a list. */
  method IterCandidates(html: string) returns (candidates: seq<nat>)
    ensures candidates == Candidates(html)
  {
    var seen: set<nat> := {};
    candidates := [];
    for m := 0 to 2
      invariant m == 0 ==> seen == {} && candidates == []
      invariant m == 1 ==> candidates == Yield(html, MARKERS[0], 0, [])
      invariant m == 1 ==> forall i :: i in seen ==> i < |html| && html[i] == 'p'
      invariant m == 2 ==> candidates == Candidates(html)
    {
      candidates, seen := YieldForMarker(html, MARKERS[m], seen, candidates);
    }
  }

  /** `extract`; `None` stands for `PageDataExtractionError`. */
  method Extract<D(!new)>(html: string, loads: string -> Loaded<D>) returns (found: Option<D>)
    ensures forall d :: found == Some(d) <==> FirstGives(html, Candidates(html), loads, d)
    ensures found == None <==>
      forall i :: 0 <= i < |Candidates(html)| ==> GivesNothing(html, Candidates(html)[i], loads)
  {
    FirstObjectIff(html, Candidates(html), loads);
    hide FirstGives, GivesNothing, Candidates;
    var candidates := IterCandidates(html);
    for i := 0 to |candidates|
      invariant FirstObject(html, Candidates(html), loads) == FirstObject(html, candidates[i..], loads)
    {
      var raw := ExtractBalancedObject(html, candidates[i]);
      assert candidates[i..][1..] == candidates[i + 1..];
      if raw.None? {
        continue;
      }
      match loads(raw.value)
      case Dict(dict) => return Some(dict);
      case OtherValue =>
      case DecodeError =>
    }
    return None;
  }
}
