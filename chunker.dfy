/**
 * `chunkText` of the RAG worker: windows of `chunkSize` characters, snapped
 * back to the last sentence break past the window's middle, rewound by
 * `chunkOverlap` after every cut that does not reach the end, trimmed, and
 * with the empty pieces dropped.
 *
 * The loop is specified by `Spans`, the sequence of half-open character
 * ranges it cuts, and `Chunks`, the trimmed non-empty pieces of those ranges.
 */
module Chunker {
  import opened Text

  /** `s.lastIndexOf(c)`: the last position holding `c`, or -1. */
  function LastIndexOf(s: string, c: char): (r: int)
    ensures -1 <= r < |s|
  {
    if s == [] then -1
    else if s[|s| - 1] == c then |s| - 1
    else LastIndexOf(s[..|s| - 1], c)
  }

  /** `LastIndexOf` finds `c` and no `c` follows it; -1 means there is none. */
  lemma {:induction false} LastIndexOfSpec(s: string, c: char)
    ensures var r := LastIndexOf(s, c);
      && (r >= 0 ==> s[r] == c)
      && (forall j :: r < j < |s| ==> s[j] != c)
  {
    if s != [] && s[|s| - 1] != c {
      LastIndexOfSpec(s[..|s| - 1], c);
    }
  }

  predicate IsBreak(c: char) { c == '.' || c == '\n' }

  /** `Math.max(chunk.lastIndexOf('.'), chunk.lastIndexOf('\n'))`. */
  function Boundary(w: string): (r: int)
    ensures -1 <= r < |w|
  {
    Max(LastIndexOf(w, '.'), LastIndexOf(w, '\n'))
  }

  /** `Boundary` is the position of the last sentence break, or -1 when there is none. */
  lemma BoundarySpec(w: string)
    ensures var r := Boundary(w);
      && (r >= 0 ==> IsBreak(w[r]))
      && (forall j :: r < j < |w| ==> !IsBreak(w[j]))
  {
    LastIndexOfSpec(w, '.');
    LastIndexOfSpec(w, '\n');
  }

  /**
   * The parameters under which every iteration moves `start` forward: a
   * snapped cut lies at least `chunkSize / 2 + 1` characters past `start`,
   * a raw cut `chunkSize` characters past it.
   */
  predicate ValidParams(chunkSize: nat, chunkOverlap: nat) {
    0 < chunkSize && chunkOverlap < chunkSize && chunkOverlap <= chunkSize / 2 + 1
  }

  /** Where one iteration ends its chunk (`hi`) and where the next one starts (`next`). */
  datatype Cut = Cut(hi: int, next: int)

  /** One iteration of the loop body, started at `start`. */
  function CutAt(text: string, chunkSize: nat, chunkOverlap: nat, start: nat): (c: Cut)
    requires start < |text|
    ensures start <= c.hi <= |text| && c.hi <= start + chunkSize
    ensures 0 < chunkSize ==> start < c.hi
    ensures c.hi == |text| <==> start + chunkSize >= |text|
    ensures c.next == (if c.hi < |text| then c.hi - chunkOverlap else c.hi)
    ensures ValidParams(chunkSize, chunkOverlap) ==> start < c.next
  {
    var end := Min(start + chunkSize, |text|);
    if end < |text| then
      var boundary := Boundary(text[start..end]);
      if 2 * boundary > chunkSize then Cut(start + boundary + 1, start + boundary + 1 - chunkOverlap)
      else Cut(end, end - chunkOverlap)
    else Cut(end, end)
  }

  /** The window starting at `start` holds a sentence break at an offset past `chunkSize / 2`. */
  ghost predicate HasLateBreak(text: string, chunkSize: nat, start: nat) {
    exists j :: start <= j < start + chunkSize && j < |text| && 2 * (j - start) > chunkSize && IsBreak(text[j])
  }

  /**
   * A window that stops short of the end is cut just after its last sentence
   * break when that break lies past the middle, so the raw chunk ends in '.'
   * or '\n'; otherwise it is cut at the window's end.
   */
  lemma CutSnap(text: string, chunkSize: nat, chunkOverlap: nat, start: nat)
    requires start + chunkSize < |text|
    ensures var c := CutAt(text, chunkSize, chunkOverlap, start);
      && (HasLateBreak(text, chunkSize, start) ==>
            && start < c.hi
            && IsBreak(text[c.hi - 1])
            && 2 * (c.hi - 1 - start) > chunkSize
            && forall j :: c.hi <= j < start + chunkSize ==> !IsBreak(text[j]))
      && (!HasLateBreak(text, chunkSize, start) ==> c.hi == start + chunkSize)
  {
    var w := text[start..start + chunkSize];
    var b := Boundary(w);
    BoundarySpec(w);
    if HasLateBreak(text, chunkSize, start) {
      var j :| start <= j < start + chunkSize && j < |text| && 2 * (j - start) > chunkSize && IsBreak(text[j]);
      assert w[j - start] == text[j];
      assert b >= j - start;
      forall i | start + b + 1 <= i < start + chunkSize
        ensures !IsBreak(text[i])
      {
        assert w[i - start] == text[i];
      }
    }
  }

  /** A half-open range `[lo, hi)` of the text. */
  datatype Span = Span(lo: int, hi: int)

  /** The ranges the loop cuts when it is entered with `start`. */
  function Spans(text: string, chunkSize: nat, chunkOverlap: nat, start: nat): (sp: seq<Span>)
    requires ValidParams(chunkSize, chunkOverlap)
    ensures InText(text, sp)
    decreases |text| - start
  {
    if start >= |text| then []
    else
      var c := CutAt(text, chunkSize, chunkOverlap, start);
      [Span(start, c.hi)] + Spans(text, chunkSize, chunkOverlap, c.next)
  }

  predicate InText(text: string, sp: seq<Span>) {
    forall k :: 0 <= k < |sp| ==> 0 <= sp[k].lo <= sp[k].hi <= |text|
  }

  /**
   * Every range lies at or after `start`, is not empty, ends inside the text
   * and is at most `chunkSize` long; there are at most as many ranges as
   * characters from `start` on.
   */
  lemma {:induction false} SpansBounds(text: string, chunkSize: nat, chunkOverlap: nat, start: nat)
    requires ValidParams(chunkSize, chunkOverlap)
    ensures var sp := Spans(text, chunkSize, chunkOverlap, start);
      && (forall k :: 0 <= k < |sp| ==>
            start <= sp[k].lo < sp[k].hi <= |text| && sp[k].hi - sp[k].lo <= chunkSize)
      && (sp != [] ==> |sp| <= |text| - start)
    decreases |text| - start
  {
    if start < |text| {
      var c := CutAt(text, chunkSize, chunkOverlap, start);
      var rest := Spans(text, chunkSize, chunkOverlap, c.next);
      SpansBounds(text, chunkSize, chunkOverlap, c.next);
      var sp := Spans(text, chunkSize, chunkOverlap, start);
      assert sp == [Span(start, c.hi)] + rest;
      assert forall k :: 1 <= k < |sp| ==> sp[k] == rest[k - 1];
    }
  }

  /** `chunk.trim()` of every range. */
  function Pieces(text: string, sp: seq<Span>): (r: seq<string>)
    requires InText(text, sp)
    ensures |r| == |sp|
  {
    if sp == [] then []
    else
      InTextTail(text, sp);
      [Trim(text[sp[0].lo..sp[0].hi])] + Pieces(text, sp[1..])
  }

  lemma InTextTail(text: string, sp: seq<Span>)
    requires InText(text, sp) && sp != []
    ensures InText(text, sp[1..])
  {
    forall k | 0 <= k < |sp| - 1
      ensures 0 <= sp[1..][k].lo <= sp[1..][k].hi <= |text|
    {
      assert sp[1..][k] == sp[k + 1];
    }
  }

  /** Piece `k` is range `k` of the text, trimmed. */
  lemma {:induction false} PiecesAt(text: string, sp: seq<Span>)
    requires InText(text, sp)
    ensures forall k :: 0 <= k < |sp| ==>
      Pieces(text, sp)[k] == Trim(text[sp[k].lo..sp[k].hi]) && IsTrimmed(Pieces(text, sp)[k])
  {
    if sp != [] {
      var tail := Pieces(text, sp[1..]);
      var p := Pieces(text, sp);
      assert p == [Trim(text[sp[0].lo..sp[0].hi])] + tail;
      PiecesAt(text, sp[1..]);
      forall k | 0 <= k < |sp|
        ensures p[k] == Trim(text[sp[k].lo..sp[k].hi])
      {
        if k > 0 {
          assert p[k] == tail[k - 1];
          assert sp[1..][k - 1] == sp[k];
        }
      }
    }
  }

  /** `chunks.filter(c => c.length > 0)`. */
  function NonEmpty(s: seq<string>): (r: seq<string>)
    ensures |r| <= |s|
    ensures forall i :: 0 <= i < |r| ==> r[i] != [] && r[i] in s
    ensures forall i :: 0 <= i < |s| && s[i] != [] ==> s[i] in r
  {
    if s == [] then []
    else if s[0] == [] then NonEmpty(s[1..])
    else [s[0]] + NonEmpty(s[1..])
  }

  /** Dropping the empty chunks of a concatenation drops them from both halves, keeping the order. */
  lemma {:induction false} NonEmptyAppend(a: seq<string>, b: seq<string>)
    ensures NonEmpty(a + b) == NonEmpty(a) + NonEmpty(b)
    decreases |a|
  {
    if a == [] {
      assert a + b == b;
    } else {
      assert (a + b)[0] == a[0] && (a + b)[1..] == a[1..] + b;
      NonEmptyAppend(a[1..], b);
    }
  }

  /** One chunk is kept exactly when it is not empty. */
  lemma NonEmptySingleton(c: string)
    ensures NonEmpty([c]) == if c != [] then [c] else []
  {
    assert [c][1..] == [];
  }

  /** What `chunkText(text, chunkSize, chunkOverlap)` returns. */
  function Chunks(text: string, chunkSize: nat, chunkOverlap: nat): seq<string>
    requires ValidParams(chunkSize, chunkOverlap)
  {
    NonEmpty(Pieces(text, Spans(text, chunkSize, chunkOverlap, 0)))
  }

  /** `Spans` unfolded once, ranges only. */
  lemma SpansOnce(text: string, chunkSize: nat, chunkOverlap: nat, start: nat)
    requires ValidParams(chunkSize, chunkOverlap) && start < |text|
    ensures var c := CutAt(text, chunkSize, chunkOverlap, start);
      Spans(text, chunkSize, chunkOverlap, start) == [Span(start, c.hi)] + Spans(text, chunkSize, chunkOverlap, c.next)
  {
  }

  /** Unfolding `Spans` once: the range cut at `start`, then the ranges from the next start. */
  lemma SpansStep(text: string, chunkSize: nat, chunkOverlap: nat, start: nat)
    requires ValidParams(chunkSize, chunkOverlap) && start < |text|
    ensures var c := CutAt(text, chunkSize, chunkOverlap, start);
      && Spans(text, chunkSize, chunkOverlap, start) == [Span(start, c.hi)] + Spans(text, chunkSize, chunkOverlap, c.next)
      && Pieces(text, Spans(text, chunkSize, chunkOverlap, start))
         == [Trim(text[start..c.hi])] + Pieces(text, Spans(text, chunkSize, chunkOverlap, c.next))
  {
    var c := CutAt(text, chunkSize, chunkOverlap, start);
    var rest := Spans(text, chunkSize, chunkOverlap, c.next);
    assert ([Span(start, c.hi)] + rest)[1..] == rest;
  }

  /** A window short of the end with a break past its middle is cut just after that break. */
  lemma SnapCut(text: string, chunkSize: nat, chunkOverlap: nat, start: nat, end: int, boundary: int)
    requires start < |text| && end == Min(start + chunkSize, |text|) && end < |text|
    requires boundary == Boundary(text[start..end]) && 2 * boundary > chunkSize
    ensures CutAt(text, chunkSize, chunkOverlap, start) == Cut(start + boundary + 1, start + boundary + 1 - chunkOverlap)
    ensures text[start..end][..boundary + 1] == text[start..CutAt(text, chunkSize, chunkOverlap, start).hi]
  {
  }

  /** A window short of the end without such a break is cut at its end. */
  lemma RawCut(text: string, chunkSize: nat, chunkOverlap: nat, start: nat, end: int, boundary: int)
    requires start < |text| && end == Min(start + chunkSize, |text|) && end < |text|
    requires boundary == Boundary(text[start..end]) && 2 * boundary <= chunkSize
    ensures CutAt(text, chunkSize, chunkOverlap, start) == Cut(end, end - chunkOverlap)
  {
  }

  /** The window that reaches the end of the text is the last one. */
  lemma LastCut(text: string, chunkSize: nat, chunkOverlap: nat, start: nat, end: int)
    requires start < |text| && end == Min(start + chunkSize, |text|) && end == |text|
    ensures CutAt(text, chunkSize, chunkOverlap, start) == Cut(end, end)
  {
  }

  /** The loop invariant carried over one iteration. */
  lemma Advance(text: string, chunkSize: nat, chunkOverlap: nat, from: nat, acc: seq<string>, all: seq<string>)
    requires ValidParams(chunkSize, chunkOverlap) && from < |text|
    requires acc + Pieces(text, Spans(text, chunkSize, chunkOverlap, from)) == all
    ensures var c := CutAt(text, chunkSize, chunkOverlap, from);
      (acc + [Trim(text[from..c.hi])]) + Pieces(text, Spans(text, chunkSize, chunkOverlap, c.next)) == all
  {
    var c := CutAt(text, chunkSize, chunkOverlap, from);
    var later := Pieces(text, Spans(text, chunkSize, chunkOverlap, c.next));
    SpansStep(text, chunkSize, chunkOverlap, from);
    SnocAssoc(acc, Trim(text[from..c.hi]), later);
  }

  lemma SnocAssoc<T>(acc: seq<T>, x: T, later: seq<T>)
    ensures (acc + [x]) + later == acc + ([x] + later)
  {
  }

  method ChunkText(text: string, chunkSize: nat, chunkOverlap: nat) returns (result: seq<string>)
    requires ValidParams(chunkSize, chunkOverlap)
    ensures result == Chunks(text, chunkSize, chunkOverlap)
    ensures forall i :: 0 <= i < |result| ==> result[i] != [] && IsTrimmed(result[i])
  {
    ghost var all := Pieces(text, Spans(text, chunkSize, chunkOverlap, 0));
    var chunks: seq<string> := [];
    var start: int := 0;
    while start < |text|
      invariant 0 <= start
      invariant chunks + Pieces(text, Spans(text, chunkSize, chunkOverlap, start)) == all
      decreases |text| - start
    {
      ghost var from := start;
      ghost var c := CutAt(text, chunkSize, chunkOverlap, from);
      Advance(text, chunkSize, chunkOverlap, from, chunks, all);
      var end := Min(start + chunkSize, |text|);
      var chunk := text[start..end];
      if end < |text| {
        var lastPeriod := LastIndexOf(chunk, '.');
        var lastNewline := LastIndexOf(chunk, '\n');
        var boundary := Max(lastPeriod, lastNewline);
        if 2 * boundary > chunkSize {
          SnapCut(text, chunkSize, chunkOverlap, from, end, boundary);
          chunk := chunk[..boundary + 1];
          start := start + boundary + 1;
          assert chunk == text[from..c.hi];
        } else {
          RawCut(text, chunkSize, chunkOverlap, from, end, boundary);
          start := end;
          assert chunk == text[from..c.hi];
        }
      } else {
        LastCut(text, chunkSize, chunkOverlap, from, end);
        start := end;
        assert chunk == text[from..c.hi];
      }
      chunks := chunks + [Trim(chunk)];
      if start < |text| {
        start := start - chunkOverlap;
      }
      assert start == c.next;
    }
    assert Spans(text, chunkSize, chunkOverlap, start) == [];
    assert chunks == all;
    result := NonEmpty(chunks);
    ChunksClean(text, chunkSize, chunkOverlap);
  }

  /** Every chunk is non-empty and has no white space at either end. */
  lemma ChunksClean(text: string, chunkSize: nat, chunkOverlap: nat)
    requires ValidParams(chunkSize, chunkOverlap)
    ensures forall c :: c in Chunks(text, chunkSize, chunkOverlap) ==> c != [] && IsTrimmed(c)
  {
    var p := Pieces(text, Spans(text, chunkSize, chunkOverlap, 0));
    PiecesAt(text, Spans(text, chunkSize, chunkOverlap, 0));
    forall c | c in Chunks(text, chunkSize, chunkOverlap)
      ensures c != [] && IsTrimmed(c)
    {
      var i :| 0 <= i < |p| && p[i] == c;
    }
  }

  /** The ranges start at `start` and the last one ends at the end of the text. */
  lemma {:induction false} SpansEnds(text: string, chunkSize: nat, chunkOverlap: nat, start: nat)
    requires ValidParams(chunkSize, chunkOverlap)
    ensures var sp := Spans(text, chunkSize, chunkOverlap, start);
      && (sp != [] <==> start < |text|)
      && (sp != [] ==> sp[0].lo == start && sp[|sp| - 1].hi == |text|)
    decreases |text| - start
  {
    if start < |text| {
      var c := CutAt(text, chunkSize, chunkOverlap, start);
      var rest := Spans(text, chunkSize, chunkOverlap, c.next);
      SpansEnds(text, chunkSize, chunkOverlap, c.next);
      SpansOnce(text, chunkSize, chunkOverlap, start);
      if rest == [] {
        assert c.hi == |text|;
      } else {
        assert Spans(text, chunkSize, chunkOverlap, start)[|rest|] == rest[|rest| - 1];
      }
    }
  }

  /** Consecutive ranges overlap by exactly `ov`, every range but the last stops short of `n`, and the starts increase. */
  ghost predicate Linked(sp: seq<Span>, n: int, ov: int) {
    forall k :: 0 <= k < |sp| - 1 ==> sp[k].hi < n && sp[k + 1].lo == sp[k].hi - ov && sp[k].lo < sp[k + 1].lo
  }

  lemma LinkedCons(h: Span, rest: seq<Span>, n: int, ov: int)
    requires Linked(rest, n, ov)
    requires rest != [] ==> h.hi < n && rest[0].lo == h.hi - ov && h.lo < rest[0].lo
    ensures Linked([h] + rest, n, ov)
  {
    var sp := [h] + rest;
    forall k | 0 <= k < |sp| - 1
      ensures sp[k].hi < n && sp[k + 1].lo == sp[k].hi - ov && sp[k].lo < sp[k + 1].lo
    {
      assert sp[k + 1] == rest[k];
      if k > 0 {
        assert sp[k] == rest[k - 1];
      }
    }
  }

  /**
   * Every range but the last stops short of the end of the text, and the
   * next one begins `chunkOverlap` characters before it ends and after it
   * begins.
   */
  lemma {:induction false} SpansLinks(text: string, chunkSize: nat, chunkOverlap: nat, start: nat)
    requires ValidParams(chunkSize, chunkOverlap)
    ensures Linked(Spans(text, chunkSize, chunkOverlap, start), |text|, chunkOverlap)
    decreases |text| - start
  {
    if start < |text| {
      var c := CutAt(text, chunkSize, chunkOverlap, start);
      var rest := Spans(text, chunkSize, chunkOverlap, c.next);
      SpansOnce(text, chunkSize, chunkOverlap, start);
      SpansLinks(text, chunkSize, chunkOverlap, c.next);
      SpansEnds(text, chunkSize, chunkOverlap, c.next);
      LinkedCons(Span(start, c.hi), rest, |text|, chunkOverlap);
    }
  }

  /** Each range is the cut `CutAt` makes at its `lo`. */
  lemma {:induction false} SpansCut(text: string, chunkSize: nat, chunkOverlap: nat, start: nat)
    requires ValidParams(chunkSize, chunkOverlap)
    ensures var sp := Spans(text, chunkSize, chunkOverlap, start);
      forall k :: 0 <= k < |sp| ==>
        sp[k].lo < |text| && sp[k].hi == CutAt(text, chunkSize, chunkOverlap, sp[k].lo).hi
    decreases |text| - start
  {
    if start < |text| {
      var c := CutAt(text, chunkSize, chunkOverlap, start);
      var rest := Spans(text, chunkSize, chunkOverlap, c.next);
      SpansCut(text, chunkSize, chunkOverlap, c.next);
      var sp := Spans(text, chunkSize, chunkOverlap, start);
      SpansOnce(text, chunkSize, chunkOverlap, start);
      assert sp == [Span(start, c.hi)] + rest;
      forall k | 0 < k < |sp|
        ensures sp[k].lo < |text| && sp[k].hi == CutAt(text, chunkSize, chunkOverlap, sp[k].lo).hi
      {
        assert sp[k] == rest[k - 1];
      }
    }
  }

  /** A range reaches the end of the text exactly when its window does. */
  lemma SpansWindow(text: string, chunkSize: nat, chunkOverlap: nat, start: nat)
    requires ValidParams(chunkSize, chunkOverlap)
    ensures var sp := Spans(text, chunkSize, chunkOverlap, start);
      forall k :: 0 <= k < |sp| ==> (sp[k].hi == |text| <==> sp[k].lo + chunkSize >= |text|)
  {
    SpansCut(text, chunkSize, chunkOverlap, start);
  }

  ghost predicate Covered(sp: seq<Span>, p: int) {
    exists k :: 0 <= k < |sp| && sp[k].lo <= p < sp[k].hi
  }

  /** With a non-negative overlap every character of the text lies in some range. */
  lemma {:induction false} SpansCover(text: string, chunkSize: nat, chunkOverlap: nat, start: nat)
    requires ValidParams(chunkSize, chunkOverlap)
    ensures var sp := Spans(text, chunkSize, chunkOverlap, start);
      forall p :: start <= p < |text| ==> Covered(sp, p)
    decreases |text| - start
  {
    if start < |text| {
      var c := CutAt(text, chunkSize, chunkOverlap, start);
      var rest := Spans(text, chunkSize, chunkOverlap, c.next);
      var sp := Spans(text, chunkSize, chunkOverlap, start);
      SpansCover(text, chunkSize, chunkOverlap, c.next);
      SpansOnce(text, chunkSize, chunkOverlap, start);
      forall p | start <= p < |text|
        ensures Covered(sp, p)
      {
        if p < c.hi {
          assert sp[0].lo <= p < sp[0].hi;
        } else {
          assert Covered(rest, p);
          var k :| 0 <= k < |rest| && rest[k].lo <= p < rest[k].hi;
          assert sp[k + 1] == rest[k];
        }
      }
    }
  }

  /** A text no longer than `chunkSize` gives its trimmed self, or nothing when it is all white space. */
  lemma ShortText(text: string, chunkSize: nat, chunkOverlap: nat)
    requires ValidParams(chunkSize, chunkOverlap) && |text| <= chunkSize
    ensures Chunks(text, chunkSize, chunkOverlap) == if AllSpace(text) then [] else [Trim(text)]
  {
    if text != [] {
      var c := CutAt(text, chunkSize, chunkOverlap, 0);
      assert c.hi == |text| && c.next == |text|;
      assert Spans(text, chunkSize, chunkOverlap, 0) == [Span(0, |text|)];
      assert text[0..|text|] == text;
      var p := Pieces(text, [Span(0, |text|)]);
      assert p == [Trim(text)];
    }
  }

  /** The loop moves forward from every position in every text exactly when the parameters are valid. */
  ghost predicate AlwaysProgresses(chunkSize: nat, chunkOverlap: nat) {
    forall text: string, start: nat :: start < |text| ==> start < CutAt(text, chunkSize, chunkOverlap, start).next
  }

  lemma ProgressExact(chunkSize: nat, chunkOverlap: nat)
    ensures ValidParams(chunkSize, chunkOverlap) <==> AlwaysProgresses(chunkSize, chunkOverlap)
  {
    if !ValidParams(chunkSize, chunkOverlap) {
      if chunkOverlap >= chunkSize {
        var text := seq(chunkSize + 1, _ => 'a');
        BoundarySpec(text[0..chunkSize]);
        assert Boundary(text[0..chunkSize]) == -1 by {
          assert forall j :: 0 <= j < chunkSize ==> !IsBreak(text[0..chunkSize][j]);
        }
        assert CutAt(text, chunkSize, chunkOverlap, 0).next <= 0;
      } else {
        var b := chunkSize / 2 + 1;
        var text := seq(chunkSize + 1, i => if i == b then '.' else 'a');
        var w := text[0..chunkSize];
        assert w[b] == '.';
        BoundarySpec(w);
        assert Boundary(w) == b by {
          assert forall j :: b < j < chunkSize ==> !IsBreak(w[j]);
        }
        assert CutAt(text, chunkSize, chunkOverlap, 0).next <= 0;
      }
    }
  }

  /**
   * "AAAA. BBBB. CCCC." with windows of 10 and overlap 2: the only break in
   * the first window lies at offset 4, not past the middle, so the first
   * chunk is the raw window and ends mid-word.
   */
  lemma SnapExample()
    ensures Chunks("AAAA. BBBB. CCCC.", 10, 2) == ["AAAA. BBBB", "BB. CCCC."]
  {
    SnapExampleOf("AAAA. BBBB. CCCC.");
  }

  lemma SnapExampleOf(text: string)
    requires text == "AAAA. BBBB. CCCC."
    ensures Chunks(text, 10, 2) == ["AAAA. BBBB", "BB. CCCC."]
  {
    ExampleCuts();
    ExampleSpans(text);
    PiecesTwo(text, Span(0, 10), Span(8, 17));
    ExampleTrims(text);
    NonEmptyTwo("AAAA. BBBB", "BB. CCCC.");
  }

  lemma NonEmptyTwo(a: string, b: string)
    requires a != [] && b != []
    ensures NonEmpty([a, b]) == [a, b]
  {
    assert [a, b][1..] == [b];
  }

  lemma ExampleCuts()
    ensures CutAt("AAAA. BBBB. CCCC.", 10, 2, 0) == Cut(10, 8)
    ensures CutAt("AAAA. BBBB. CCCC.", 10, 2, 8) == Cut(17, 17)
  {
    var w := "AAAA. BBBB. CCCC."[0..10];
    assert w == "AAAA. BBBB";
    BoundarySpec(w);
    assert w[4] == '.' && forall j :: 5 <= j < 10 ==> !IsBreak(w[j]);
  }

  /** The loop's ranges over a 17-character text whose two cuts are those of the example. */
  lemma ExampleSpans(text: string)
    requires |text| == 17
    requires CutAt(text, 10, 2, 0) == Cut(10, 8) && CutAt(text, 10, 2, 8) == Cut(17, 17)
    ensures Spans(text, 10, 2, 0) == [Span(0, 10), Span(8, 17)]
  {
    SpansOnce(text, 10, 2, 8);
    assert Spans(text, 10, 2, 17) == [];
    SpansOnce(text, 10, 2, 0);
  }

  lemma PiecesTwo(text: string, a: Span, b: Span)
    requires 0 <= a.lo <= a.hi <= |text| && 0 <= b.lo <= b.hi <= |text|
    ensures Pieces(text, [a, b]) == [Trim(text[a.lo..a.hi]), Trim(text[b.lo..b.hi])]
  {
    assert [a, b][1..] == [b];
  }

  lemma ExampleTrims(text: string)
    requires text == "AAAA. BBBB. CCCC."
    ensures Trim(text[0..10]) == "AAAA. BBBB"
    ensures Trim(text[8..17]) == "BB. CCCC."
  {
    assert text[0..10] == "AAAA. BBBB";
    assert text[8..17] == "BB. CCCC.";
    var a := "AAAA. BBBB";
    var b := "BB. CCCC.";
    assert !IsSpace(a[0]) && !IsSpace(a[|a| - 1]);
    assert !IsSpace(b[0]) && !IsSpace(b[|b| - 1]);
    TrimOfTrimmed(a);
    TrimOfTrimmed(b);
  }

  /** A window of 6 with overlap 5 snaps at the '.' of "abcd.fgh" and rewinds to where it began. */
  lemma StallExample()
    ensures !ValidParams(6, 5)
    ensures CutAt("abcd.fgh", 6, 5, 0) == Cut(5, 0)
  {
    var w := "abcd.fgh"[0..6];
    BoundarySpec(w);
    assert w[4] == '.' && !IsBreak(w[5]);
    assert Boundary(w) == 4;
  }
}
