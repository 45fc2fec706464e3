/** URL auto-linking of a description: the `TextWithUrls` component.
    A text is split into plain-text runs and the matches of the global
    regular expression `(https?:\/\/[^\s]+)`, found left to right. */
module UrlText {
  import opened Wrappers

  /** One piece of the partition: plain text, or a URL that becomes a link. */
  datatype Segment = Text(content: string) | Url(content: string)

  /** JavaScript's `\s`: the WhiteSpace and LineTerminator code points of ECMAScript. */
  predicate IsSpace(c: char)
  {
    c == '\t' || c == '\n' || c == '\U{000B}' || c == '\U{000C}' || c == '\r' || c == ' '
    || c == '\U{00A0}' || c == '\U{1680}' || ('\U{2000}' <= c <= '\U{200A}')
    || c == '\U{2028}' || c == '\U{2029}' || c == '\U{202F}' || c == '\U{205F}'
    || c == '\U{3000}' || c == '\U{FEFF}'
  }

  /** `prefix` occurs in `text` at position `p`. */
  predicate PrefixAt(text: string, p: nat, prefix: string)
  {
    p + |prefix| <= |text| && text[p..p + |prefix|] == prefix
  }

  /** The pattern `https?:\/\/[^\s]+` can start a match at `p`: one of the two
      choices of the optional `s`, then at least one non-whitespace character. */
  predicate UrlAt(text: string, p: nat)
  {
    (PrefixAt(text, p, "https://") && p + 8 < |text| && !IsSpace(text[p + 8]))
    || (PrefixAt(text, p, "http://") && p + 7 < |text| && !IsSpace(text[p + 7]))
  }

  /** What a URL segment must look like: a scheme prefix, something after
      the `//`, and no whitespace anywhere. */
  predicate WellFormedUrl(s: string)
  {
    ((PrefixAt(s, 0, "https://") && |s| > 8) || (PrefixAt(s, 0, "http://") && |s| > 7))
    && forall i :: 0 <= i < |s| ==> !IsSpace(s[i])
  }

  /** The greedy `[^\s]+`: the first position at or after `p` holding
      whitespace, or the end of the text. */
  function RunEnd(text: string, p: nat): (q: nat)
    requires p <= |text|
    ensures p <= q <= |text|
    ensures q == |text| || IsSpace(text[q])
    ensures forall j :: p <= j < q ==> !IsSpace(text[j])
    decreases |text| - p
  {
    if p == |text| || IsSpace(text[p]) then p else RunEnd(text, p + 1)
  }

  /** `urlRegex.exec(text)` with the regex's cursor at `from`: the leftmost
      position at or after `from` where a match starts, if any. */
  function NextUrl(text: string, from: nat): (r: Option<nat>)
    requires from <= |text|
    ensures r.Some? ==> from <= r.value < |text| && UrlAt(text, r.value)
    ensures r.Some? ==> forall j :: from <= j < r.value ==> !UrlAt(text, j)
    ensures r.None? ==> forall j :: from <= j <= |text| ==> !UrlAt(text, j)
    decreases |text| - from
  {
    if from == |text| then None
    else if UrlAt(text, from) then Some(from)
    else NextUrl(text, from + 1)
  }

  /** No character of the two scheme prefixes is whitespace. */
  lemma SchemeNoSpace(text: string, p: nat, n: nat)
    requires n == 7 || n == 8
    requires PrefixAt(text, p, if n == 8 then "https://" else "http://")
    ensures forall j :: p <= j < p + n ==> !IsSpace(text[j])
  {
    var prefix := if n == 8 then "https://" else "http://";
    forall j | p <= j < p + n
      ensures !IsSpace(text[j])
    {
      assert text[j] == text[p..p + n][j - p] == prefix[j - p];
    }
  }

  /** A maximal non-space run that starts with a regex match is a well-formed URL. */
  lemma UrlRunWellFormed(text: string, p: nat, q: nat)
    requires UrlAt(text, p) && p <= q <= |text|
    requires forall j :: p <= j < q ==> !IsSpace(text[j])
    requires q == |text| || IsSpace(text[q])
    ensures WellFormedUrl(text[p..q])
  {
    var n := if PrefixAt(text, p, "https://") && p + 8 < |text| && !IsSpace(text[p + 8]) then 8 else 7;
    SchemeNoSpace(text, p, n);
    assert p + n < q;
    var s := text[p..q];
    assert s[..n] == text[p..p + n];
    assert forall i :: 0 <= i < |s| ==> s[i] == text[p + i];
  }

  /** A match extends past its start and is a well-formed URL. */
  lemma UrlAtFacts(text: string, p: nat)
    requires UrlAt(text, p)
    ensures p < RunEnd(text, p)
    ensures WellFormedUrl(text[p..RunEnd(text, p)])
  {
    UrlRunWellFormed(text, p, RunEnd(text, p));
  }

  /** The segments the loop of `TextWithUrls` produces from cursor `last` on:
      the gap before the next match (if not empty), the match, and the rest;
      with no match left, the remaining text (if not empty). */
  function TokensFrom(text: string, last: nat): seq<Segment>
    requires last <= |text|
    decreases |text| - last
  {
    match NextUrl(text, last)
    case None => if last < |text| then [Text(text[last..])] else []
    case Some(p) =>
      UrlAtFacts(text, p);
      var q := RunEnd(text, p);
      (if p > last then [Text(text[last..p])] else []) + [Url(text[p..q])] + TokensFrom(text, q)
  }

  /** The segments of a whole text. */
  function Tokenize(text: string): seq<Segment>
  {
    TokensFrom(text, 0)
  }

  /** The texts of the segments, in order. */
  function Concat(segs: seq<Segment>): string
  {
    if segs == [] then [] else segs[0].content + Concat(segs[1..])
  }

  /** A declarative description of the partition, independent of the loop:
      `segs` cover `text[pos..]` exactly; a text segment is not empty, holds
      no position where a URL could start, and is followed by a URL segment
      or nothing; a URL segment starts a match and runs up to the next
      whitespace or the end of the text. */
  ghost predicate Tiles(text: string, pos: nat, segs: seq<Segment>)
    decreases |segs|
  {
    if segs == [] then pos == |text|
    else
      Fits(text, pos, segs[0])
      && (segs[0].Text? && |segs| > 1 ==> segs[1].Url?)
      && Tiles(text, pos + |segs[0].content|, segs[1..])
  }

  /** One segment in its place at `pos`: its content is the text there. A
      text segment is non-empty and holds no match start; a URL segment
      starts with a match and runs up to the next whitespace or the end. */
  ghost predicate Fits(text: string, pos: nat, s: Segment)
  {
    var next := pos + |s.content|;
    next <= |text| && text[pos..next] == s.content &&
    match s
    case Text(_) =>
      pos < next && forall j :: pos <= j < next ==> !UrlAt(text, j)
    case Url(_) =>
      UrlAt(text, pos)
      && (forall j :: pos <= j < next ==> !IsSpace(text[j]))
      && (next == |text| || IsSpace(text[next]))
  }

  /** A match followed by a partition of what comes after it is a partition. */
  lemma TilesConsUrl(text: string, p: nat, rest: seq<Segment>)
    requires UrlAt(text, p) && Tiles(text, RunEnd(text, p), rest)
    ensures Tiles(text, p, [Url(text[p..RunEnd(text, p)])] + rest)
  {
    UrlAtFacts(text, p);
    var u := [Url(text[p..RunEnd(text, p)])] + rest;
    assert u[1..] == rest;
  }

  /** A non-empty gap without match starts followed by a partition that
      begins with a URL is a partition. */
  lemma TilesConsText(text: string, last: nat, p: nat, u: seq<Segment>)
    requires last < p <= |text|
    requires forall j :: last <= j < p ==> !UrlAt(text, j)
    requires u != [] && u[0].Url? && Tiles(text, p, u)
    ensures Tiles(text, last, [Text(text[last..p])] + u)
  {
    var t := [Text(text[last..p])] + u;
    assert t[1..] == u;
  }

  /** One round of the loop: the segments from `last` are the gap, the
      match and the segments from the end of the match. */
  lemma TokensFromStep(text: string, last: nat)
    requires last <= |text| && NextUrl(text, last).Some?
    ensures var p := NextUrl(text, last).value;
            p < RunEnd(text, p) &&
            TokensFrom(text, last)
            == (if p > last then [Text(text[last..p])] else [])
               + [Url(text[p..RunEnd(text, p)])] + TokensFrom(text, RunEnd(text, p))
  {
    UrlAtFacts(text, NextUrl(text, last).value);
  }

  /** The round after the last match: what is left becomes one text segment,
      unless nothing is left. */
  lemma TokensFromEnd(text: string, last: nat)
    requires last <= |text| && NextUrl(text, last).None?
    ensures TokensFrom(text, last) == if last < |text| then [Text(text[last..])] else []
  {
  }

  /** The loop's segments satisfy the declarative description. */
  lemma {:induction false} TokensTile(text: string, last: nat)
    requires last <= |text|
    ensures Tiles(text, last, TokensFrom(text, last))
    decreases |text| - last
  {
    var r := NextUrl(text, last);
    if r.None? {
      if last < |text| {
        var segs := [Text(text[last..])];
        assert segs[1..] == [];
        assert TokensFrom(text, last) == segs;
        assert Tiles(text, |text|, []);
      }
    } else {
      var p := r.value;
      TokensFromStep(text, last);
      var q := RunEnd(text, p);
      var rest := TokensFrom(text, q);
      TokensTile(text, q);
      var u := [Url(text[p..q])] + rest;
      TilesConsUrl(text, p, rest);
      if p > last {
        TilesConsText(text, last, p, u);
        assert TokensFrom(text, last) == [Text(text[last..p])] + u;
      } else {
        assert TokensFrom(text, last) == u;
      }
    }
  }

  /** A tiling that starts before the end of the text is not empty. */
  lemma TilesNonEmpty(text: string, pos: nat, segs: seq<Segment>)
    requires Tiles(text, pos, segs) && pos < |text|
    ensures segs != []
  {
  }

  /** The declarative description admits exactly one partition. */
  lemma {:induction false} TilesUnique(text: string, pos: nat, a: seq<Segment>, b: seq<Segment>)
    requires Tiles(text, pos, a) && Tiles(text, pos, b)
    ensures a == b
    decreases |a|
  {
    if pos < |text| {
      TilesNonEmpty(text, pos, a);
      TilesNonEmpty(text, pos, b);
      var na, nb := pos + |a[0].content|, pos + |b[0].content|;
      assert a[0].Text? <==> b[0].Text?;
      if na < |text| { TilesNonEmpty(text, na, a[1..]); }
      if nb < |text| { TilesNonEmpty(text, nb, b[1..]); }
      assert na == nb;
      assert a[0] == b[0];
      TilesUnique(text, na, a[1..], b[1..]);
      assert a == [a[0]] + a[1..] && b == [b[0]] + b[1..];
    } else {
      assert a == [] && b == [];
    }
  }

  /** A partition is exactly the one `Tokenize` produces iff it satisfies the
      declarative description. */
  lemma TokenizeCharacterized(text: string, segs: seq<Segment>)
    ensures Tiles(text, 0, segs) <==> segs == Tokenize(text)
  {
    TokensTile(text, 0);
    if Tiles(text, 0, segs) {
      TilesUnique(text, 0, segs, Tokenize(text));
    }
  }

  /** Lossless: the segments of a partition give back the text they cover. */
  lemma {:induction false} TilesLossless(text: string, pos: nat, segs: seq<Segment>)
    requires Tiles(text, pos, segs)
    ensures pos <= |text| && Concat(segs) == text[pos..]
    decreases |segs|
  {
    if segs != [] {
      var next := pos + |segs[0].content|;
      TilesLossless(text, next, segs[1..]);
      assert text[pos..] == text[pos..next] + text[next..];
    }
  }

  /** The segments after the first `k` cover the text from where the first
      `k` end. */
  lemma {:induction false} TilesSuffix(text: string, pos: nat, segs: seq<Segment>, k: nat)
    requires Tiles(text, pos, segs) && k <= |segs|
    ensures Tiles(text, pos + |Concat(segs[..k])|, segs[k..])
    decreases k
  {
    if k > 0 {
      var next := pos + |segs[0].content|;
      var tail := segs[1..];
      TilesTail(text, pos, segs);
      TilesSuffix(text, next, tail, k - 1);
      ConcatPrefix(segs, k);
      assert tail[k - 1..] == segs[k..];
      assert next + |Concat(tail[..k - 1])| == pos + |Concat(segs[..k])|;
    } else {
      assert segs[..0] == [];
    }
  }

  /** The segments after the first cover the text from where the first ends. */
  lemma TilesTail(text: string, pos: nat, segs: seq<Segment>)
    requires Tiles(text, pos, segs) && segs != []
    ensures Tiles(text, pos + |segs[0].content|, segs[1..])
  {
  }

  /** The first `k` segments are the first one and the next `k - 1`. */
  lemma ConcatPrefix(segs: seq<Segment>, k: nat)
    requires 0 < k <= |segs|
    ensures |Concat(segs[..k])| == |segs[0].content| + |Concat(segs[1..][..k - 1])|
  {
    assert segs[..k][0] == segs[0];
    assert segs[..k][1..] == segs[1..][..k - 1];
  }

  /** What each segment of a partition is, at its place in the text. */
  lemma SegmentAt(text: string, segs: seq<Segment>, k: nat)
    requires Tiles(text, 0, segs) && k < |segs|
    ensures var start := |Concat(segs[..k])|;
            var end := start + |segs[k].content|;
            end <= |text| && text[start..end] == segs[k].content
            && (segs[k].Text? ==>
                  segs[k].content != []
                  && (forall j :: start <= j < end ==> !UrlAt(text, j))
                  && (k + 1 < |segs| ==> segs[k + 1].Url?))
            && (segs[k].Url? ==>
                  WellFormedUrl(segs[k].content)
                  && (end == |text| || IsSpace(text[end])))
  {
    var start := |Concat(segs[..k])|;
    TilesSuffix(text, 0, segs, k);
    var suffix := segs[k..];
    assert suffix[0] == segs[k];
    if segs[k].Url? {
      UrlRunWellFormed(text, start, start + |segs[k].content|);
    }
    if segs[k].Text? && k + 1 < |segs| {
      assert suffix[1] == segs[k + 1];
    }
  }

  /** One round of the loop keeps "segments produced so far, then the
      segments from the cursor on" equal to the whole result. */
  lemma LoopStep(text: string, last: nat, p: nat, before: seq<Segment>, gap: seq<Segment>)
    requires last <= |text| && NextUrl(text, last) == Some(p)
    requires gap == if p > last then [Text(text[last..p])] else []
    ensures p < RunEnd(text, p)
    ensures (before + gap + [Url(text[p..RunEnd(text, p)])]) + TokensFrom(text, RunEnd(text, p))
            == before + TokensFrom(text, last)
  {
    TokensFromStep(text, last);
    Regroup(before, gap, [Url(text[p..RunEnd(text, p)])], TokensFrom(text, RunEnd(text, p)));
  }

  /** Regrouping a concatenation of four segment lists. */
  lemma Regroup(a: seq<Segment>, b: seq<Segment>, c: seq<Segment>, d: seq<Segment>)
    ensures (a + b + c) + d == a + (b + c + d)
  {
  }

  /** Everything the source promises of the segments of a text. */
  lemma TokenizeProperties(text: string)
    ensures Concat(Tokenize(text)) == text
    ensures Tokenize(text) == [] <==> text == []
    ensures forall k :: 0 <= k < |Tokenize(text)| && Tokenize(text)[k].Text? ==> Tokenize(text)[k].content != []
    ensures forall k :: 0 <= k < |Tokenize(text)| && Tokenize(text)[k].Url? ==> WellFormedUrl(Tokenize(text)[k].content)
    ensures forall k :: 0 <= k < |Tokenize(text)| - 1 && Tokenize(text)[k].Text? ==> Tokenize(text)[k + 1].Url?
  {
    var segs := Tokenize(text);
    TokensTile(text, 0);
    TilesLossless(text, 0, segs);
    forall k | 0 <= k < |segs|
      ensures segs[k].Text? ==> segs[k].content != []
      ensures segs[k].Url? ==> WellFormedUrl(segs[k].content)
      ensures k < |segs| - 1 && segs[k].Text? ==> segs[k + 1].Url?
    {
      SegmentAt(text, segs, k);
    }
  }

  /** The source's loop: a cursor `lastIndex`, one `exec` per round, a text
      segment for a non-empty gap, a URL segment for the match, and a
      trailing text segment for what is left. */
  method TextWithUrls(text: string) returns (segments: seq<Segment>)
    ensures segments == Tokenize(text)
    ensures Concat(segments) == text
    ensures forall k :: 0 <= k < |segments| && segments[k].Text? ==> segments[k].content != []
    ensures forall k :: 0 <= k < |segments| && segments[k].Url? ==> WellFormedUrl(segments[k].content)
    ensures forall k :: 0 <= k < |segments| - 1 && segments[k].Text? ==> segments[k + 1].Url?
  {
    segments := [];
    var lastIndex := 0;
    ghost var whole := Tokenize(text);
    var found := NextUrl(text, lastIndex);
    while found.Some?
      invariant lastIndex <= |text|
      invariant found == NextUrl(text, lastIndex)
      invariant segments + TokensFrom(text, lastIndex) == whole
      invariant segments == [] || segments[|segments| - 1].Url?
      decreases |text| - lastIndex
    {
      var index := found.value;
      ghost var before := segments;
      ghost var gap := if index > lastIndex then [Text(text[lastIndex..index])] else [];
      LoopStep(text, lastIndex, index, before, gap);
      var url := text[index..RunEnd(text, index)];
      if index > lastIndex {
        segments := segments + [Text(text[lastIndex..index])];
      }
      assert segments == before + gap;
      segments := segments + [Url(url)];
      lastIndex := index + |url|;
      assert lastIndex == RunEnd(text, index);
      found := NextUrl(text, lastIndex);
    }
    TokensFromEnd(text, lastIndex);
    if lastIndex < |text| {
      segments := segments + [Text(text[lastIndex..])];
    }
    TokenizeProperties(text);
  }
}
