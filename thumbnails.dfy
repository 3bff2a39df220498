/** `getThumbFromDescription` (app.js): the first match of the regular
    expression `<img[^>]+src="([^">]+)"` in an item's description, and its
    capture group.  The expression is case-sensitive; `exec` reports the
    leftmost match, and at that position the greedy `[^>]+` backtracks from
    its longest run, so the `src="` nearest to the end of the tag wins. */
module Thumbnails {
  import opened Prelude
  import opened JsStrings

  const ImgOpen := "<img"
  const SrcOpen := "src=\""

  /** `src="([^">]+)"` matches at `j`, the closing quote standing at `k`. */
  ghost predicate ValueMatch(s: string, j: int, k: int)
  {
    && 0 <= j && j + 5 < k < |s|
    && s[j..j + 5] == SrcOpen
    && (forall p :: j + 5 <= p < k ==> s[p] != '"' && s[p] != '>')
    && s[k] == '"'
  }

  /** The whole expression matches with `<img` at `i`, `src="` at `j` and the
      closing quote at `k`; the capture group is then `s[j + 5..k]`. */
  ghost predicate MatchAt(s: string, i: int, j: int, k: int)
  {
    && 0 <= i && i + 4 < j
    && ValueMatch(s, j, k)
    && s[i..i + 4] == ImgOpen
    && (forall p :: i + 4 <= p < j ==> s[p] != '>')
  }

  /** The match `exec` reports: leftmost start, then the greedy (rightmost) `src="`. */
  ghost predicate ExecMatch(s: string, i: int, j: int, k: int)
  {
    && MatchAt(s, i, j, k)
    && (forall i', j', k' :: 0 <= i' < i ==> !MatchAt(s, i', j', k'))
    && (forall j', k' :: MatchAt(s, i, j', k') ==> j' <= j)
  }

  /** Positions of a match: `<img` at `img`, `src="` at `src`, closing quote at `close`. */
  datatype Span = Span(img: int, src: int, close: int)

  /** The first `>` at or after `p` (or `|s|`): how far `[^>]+` can run. */
  function TagEnd(s: string, p: int): (q: int)
    requires 0 <= p <= |s|
    ensures p <= q <= |s|
    ensures q < |s| ==> s[q] == '>'
    ensures forall r :: p <= r < q ==> s[r] != '>'
    decreases |s| - p
  {
    if p == |s| || s[p] == '>' then p else TagEnd(s, p + 1)
  }

  /** The first `"` or `>` at or after `p` (or `|s|`): how far `[^">]+` can run. */
  function ValueEnd(s: string, p: int): (q: int)
    requires 0 <= p <= |s|
    ensures p <= q <= |s|
    ensures q < |s| ==> s[q] == '"' || s[q] == '>'
    ensures forall r :: p <= r < q ==> s[r] != '"' && s[r] != '>'
    decreases |s| - p
  {
    if p == |s| || s[p] == '"' || s[p] == '>' then p else ValueEnd(s, p + 1)
  }

  /** Tries `src="([^">]+)"` at `j`; the greedy value run cannot usefully
      backtrack, so there is at most one closing quote to find. */
  function ValueAt(s: string, j: int): (r: Option<int>)
    requires 0 <= j <= |s|
    ensures r.Some? ==> ValueMatch(s, j, r.value)
    ensures r.None? ==> forall k :: !ValueMatch(s, j, k)
  {
    if j + 5 <= |s| && s[j..j + 5] == SrcOpen then
      var k := ValueEnd(s, j + 5);
      if j + 5 < k < |s| && s[k] == '"' then Some(k) else None
    else
      None
  }

  /** Backtracking of `[^>]+` that started at `lo`: tries `src="` at `j`,
      then at `j - 1`, and so on down to `lo + 1`. */
  function LastSrc(s: string, lo: int, j: int): (r: Option<(int, int)>)
    requires 0 <= lo <= j <= |s|
    ensures r.Some? ==> lo < r.value.0 <= j && ValueMatch(s, r.value.0, r.value.1)
    ensures r.Some? ==> forall j', k' :: r.value.0 < j' <= j ==> !ValueMatch(s, j', k')
    ensures r.None? ==> forall j', k' :: lo < j' <= j ==> !ValueMatch(s, j', k')
    decreases j - lo
  {
    if j <= lo then None
    else match ValueAt(s, j)
      case Some(k) => Some((j, k))
      case None => LastSrc(s, lo, j - 1)
  }

  /** With `<img` at `i`, a match at `i` is exactly a value match at a
      position the tag's `[^>]+` run can reach. */
  lemma MatchAtImg(s: string, i: int)
    requires 0 <= i && i + 4 <= |s| && s[i..i + 4] == ImgOpen
    ensures forall j, k :: MatchAt(s, i, j, k) <==> i + 4 < j <= TagEnd(s, i + 4) && ValueMatch(s, j, k)
  {
  }

  /** The scan `exec` performs from position `i0` onwards. */
  function FindMatch(s: string, i0: int): (r: Option<Span>)
    requires 0 <= i0 <= |s|
    ensures r.Some? ==> i0 <= r.value.img && MatchAt(s, r.value.img, r.value.src, r.value.close)
    ensures r.Some? ==> forall i, j, k :: i0 <= i < r.value.img ==> !MatchAt(s, i, j, k)
    ensures r.Some? ==> forall j, k :: MatchAt(s, r.value.img, j, k) ==> j <= r.value.src
    ensures r.None? ==> forall i, j, k :: i0 <= i ==> !MatchAt(s, i, j, k)
    decreases |s| - i0
  {
    if i0 + 4 > |s| then None
    else if s[i0..i0 + 4] == ImgOpen then
      MatchAtImg(s, i0);
      match LastSrc(s, i0 + 4, TagEnd(s, i0 + 4))
      case Some((j, k)) => Some(Span(i0, j, k))
      case None => FindMatch(s, i0 + 1)
    else
      FindMatch(s, i0 + 1)
  }

  /** `getThumbFromDescription(description)`: `null` for a falsy description
      or when nothing matches, else the capture group of the first match. */
  function GetThumbFromDescription(description: Option<string>): (r: Option<string>)
    ensures r.Some? ==> Truthy(description) && r.value != []
    ensures r.Some? ==> forall c :: c in r.value ==> c != '"' && c != '>'
    ensures r.Some? ==> exists i, j, k :: ExecMatch(description.value, i, j, k) && r.value == description.value[j + 5..k]
  {
    if !Truthy(description) then None
    else match FindMatch(description.value, 0)
      case None => None
      case Some(m) =>
        var s := description.value;
        assert ExecMatch(s, m.img, m.src, m.close);
        Some(s[m.src + 5..m.close])
  }

  /** The scan agrees with the regular expression in both directions: it
      yields nothing exactly when no match exists, and the capture of the
      match `exec` reports whenever one does. */
  lemma {:induction false} ThumbnailIsExecCapture(s: string)
    requires s != []
    ensures GetThumbFromDescription(Some(s)).None? <==> forall i, j, k :: !MatchAt(s, i, j, k)
    ensures forall i, j, k :: ExecMatch(s, i, j, k) ==> GetThumbFromDescription(Some(s)) == Some(s[j + 5..k])
  {
    var r := FindMatch(s, 0);
    forall i, j, k | ExecMatch(s, i, j, k)
      ensures GetThumbFromDescription(Some(s)) == Some(s[j + 5..k])
    {
      var m := r.value;
      assert m.img == i;
      assert m.src == j;
      assert ValueEnd(s, j + 5) == k && ValueEnd(s, j + 5) == m.close;
    }
  }

  /** In `<img src="a.png">` the one space before `src` satisfies `[^>]+`,
      and `exec` matches the whole tag. */
  lemma PlainImageMatch(s: string)
    requires s == "<img src=\"a.png\">"
    ensures ExecMatch(s, 0, 5, 15)
  {
    assert s[4] == ' ';
    assert MatchAt(s, 0, 5, 15);
    forall j, k | MatchAt(s, 0, j, k)
      ensures j <= 5
    {
      assert s[j] == s[j..j + 5][0] == 's';
      assert s[6] == 'r' && s[7] == 'c' && s[8] == '=' && s[9] == '"' && s[10] == 'a';
    }
  }

  /** The thumbnail taken from `<img src="a.png">` is `a.png`. */
  lemma PlainImageExample(s: string)
    requires s == "<img src=\"a.png\">"
    ensures GetThumbFromDescription(Some(s)) == Some("a.png")
  {
    PlainImageMatch(s);
    ThumbnailIsExecCapture(s);
    assert s[10..15] == "a.png";
  }

  /** Greediness: in `<img src="a" data-src="b">` the match `exec` reports
      ends at the `src="` of `data-src`, the last one in the tag. */
  lemma LaterSrcMatch(s: string)
    requires s == "<img src=\"a\" data-src=\"b\">"
    ensures ExecMatch(s, 0, 18, 24)
  {
    forall p | 4 <= p < 18
      ensures s[p] != '>'
    {
      assert p == 4 || p == 5 || p == 6 || p == 7 || p == 8 || p == 9 || p == 10 || p == 11 || p == 12 || p == 13 || p == 14 || p == 15 || p == 16 || p == 17;
    }
    assert MatchAt(s, 0, 18, 24);
    forall j, k | MatchAt(s, 0, j, k)
      ensures j <= 18
    {
      assert s[j] == s[j..j + 5][0] == 's';
      assert s[19] == 'r';
    }
  }

  /** So the thumbnail taken from `<img src="a" data-src="b">` is `b`, not `a`. */
  lemma LaterSrcWinsExample(s: string)
    requires s == "<img src=\"a\" data-src=\"b\">"
    ensures GetThumbFromDescription(Some(s)) == Some("b")
  {
    LaterSrcMatch(s);
    ThumbnailIsExecCapture(s);
    assert s[23..24] == "b";
  }
}
