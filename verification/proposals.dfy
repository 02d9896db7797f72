/** `_parse_proposals`: find the JSON array in a model's answer (inside a
    fenced code block when there is one), cut it from the first `[` to the last
    `]`, and decode it. The JSON decoder is an oracle passed in. */
module Proposals {
  import opened Common

  /** What `json.loads` does with a text: raises, returns something that is not a
      list, or returns a list of items. */
  datatype Decoded<T> = DecodeError | NotList | List(items: seq<T>)

  const Fence: string := "```"

  /** Where group 1 of `re.search(r"```(?:json)?\s*\n?(.*?)```", s, re.DOTALL)`
      starts and ends, given the first fence at `p`: after the fence, an optional
      `json`, and all whitespace; up to the next fence. */
  datatype Block = Block(open: nat, start: nat, end: nat)

  /** The index just past the greedy `(?:json)?\s*\n?` that follows a fence
      ending at `j`. */
  function AfterPrefix(s: string, j: nat): (g: nat)
    requires j <= |s|
    ensures j <= g <= |s|
    ensures forall k | j <= k < g :: s[k] != '`'
  {
    var k := if OccursAt(s, "json", j) then j + 4 else j;
    k + LeadingSpaces(s[k..])
  }

  /** The first fenced block, if the text has one. */
  function CodeBlock(s: string): (b: Option<Block>)
    ensures b.Some? ==> b.value.open + 3 <= b.value.start <= b.value.end && b.value.end + 3 <= |s|
    ensures b.Some? ==> OccursAt(s, Fence, b.value.open) && OccursAt(s, Fence, b.value.end)
    ensures b.Some? ==> forall j | 0 <= j < b.value.open :: !OccursAt(s, Fence, j)
    ensures b.Some? ==> forall j | b.value.start <= j < b.value.end :: !OccursAt(s, Fence, j)
  {
    match Find(s, Fence, 0)
    case None => None
    case Some(p) =>
      var g := AfterPrefix(s, p + 3);
      match Find(s, Fence, g)
      case None => None
      case Some(e) => Some(Block(p, g, e))
  }

  /** When the first fence is not closed, no later fence opens a block either: a
      second fence after the first one's prefix would have closed it. */
  lemma NoBlockNoFencePair(s: string)
    requires CodeBlock(s).None?
    ensures forall p, e | OccursAt(s, Fence, p) && OccursAt(s, Fence, e) :: e < p + 3
  {
    forall p, e | OccursAt(s, Fence, p) && OccursAt(s, Fence, e) ensures e < p + 3 {
      var p0 := Find(s, Fence, 0).value;
      var g := AfterPrefix(s, p0 + 3);
      assert Find(s, Fence, g).None?;
      assert p0 <= p;
      assert e < g;
      assert s[e] == s[e..e + 3][0] == '`';
      assert e < p0 + 3;
    }
  }

  /** The text searched for the array: the block's contents, stripped, or else the
      whole answer, stripped. */
  function SearchedText(response: string): string {
    match CodeBlock(response)
    case Some(b) => Strip(response[b.start..b.end])
    case None => Strip(response)
  }

  /** `json_text[start : end + 1]` with `start = find("[")` and `end = rfind("]")`,
      or nothing when either bracket is missing. */
  function BracketSlice(t: string): (r: Option<string>)
    ensures r.None? <==> ('[' !in t || ']' !in t)
  {
    match FindChar(t, '[', 0)
    case None => None
    case Some(i) =>
      match RFindChar(t, ']')
      case None => None
      case Some(j) => Some(Slice(t, i, j + 1))
  }

  /** `_parse_proposals(response_text)`: the decoded list, or `[]`. */
  function ParseProposals<T>(response: string, decode: string -> Decoded<T>): seq<T> {
    match BracketSlice(SearchedText(response))
    case None => []
    case Some(body) =>
      match decode(body)
      case List(items) => items
      case _ => []
  }

  /** The decoder receives exactly the text from the first `[` through the last `]`
      of the searched text, and only a decoded list is returned. */
  lemma DecoderInput<T>(response: string, decode: string -> Decoded<T>, i: nat, j: nat)
    requires var t := SearchedText(response);
      i < |t| && t[i] == '[' && (forall k | 0 <= k < i :: t[k] != '[')
      && j < |t| && t[j] == ']' && (forall k | j < k < |t| :: t[k] != ']')
    ensures var body := Slice(SearchedText(response), i, j + 1);
      ParseProposals(response, decode) == if decode(body).List? then decode(body).items else []
  {
    var t := SearchedText(response);
    assert FindChar(t, '[', 0) == Some(i);
    assert RFindChar(t, ']') == Some(j);
    assert BracketSlice(t) == Some(Slice(t, i, j + 1));
  }

  /** Without a `[` or without a `]` there is nothing to decode. */
  lemma MissingBracketGivesEmpty<T>(response: string, decode: string -> Decoded<T>)
    requires '[' !in SearchedText(response) || ']' !in SearchedText(response)
    ensures ParseProposals(response, decode) == []
  {
  }

  /** A last `]` before the first `[` gives an empty slice; the decoder rejects the
      empty text, so the result is `[]`. */
  lemma ReversedBracketsGiveEmpty<T>(response: string, decode: string -> Decoded<T>)
    requires decode("") == DecodeError
    requires var t := SearchedText(response);
      exists i, j | 0 <= j < i < |t| :: t[i] == '[' && t[j] == ']'
        && (forall k | 0 <= k < i :: t[k] != '[') && (forall k | j < k < |t| :: t[k] != ']')
    ensures ParseProposals(response, decode) == []
  {
    var t := SearchedText(response);
    var i, j :| 0 <= j < i < |t| && t[i] == '[' && t[j] == ']'
      && (forall k | 0 <= k < i :: t[k] != '[') && (forall k | j < k < |t| :: t[k] != ']');
    DecoderInput(response, decode, i, j);
    assert Slice(t, i, j + 1) == "";
  }

  /** A decoder error or a decoded non-list gives `[]`. */
  lemma NonListGivesEmpty<T>(response: string, decode: string -> Decoded<T>)
    requires BracketSlice(SearchedText(response)).Some?
    requires !decode(BracketSlice(SearchedText(response)).value).List?
    ensures ParseProposals(response, decode) == []
  {
  }

  /** With a fenced block, only the block is searched: brackets before or after
      it change nothing. */
  lemma FenceContentsOnly(pre: string, body: string, post: string)
    requires forall k | 0 <= k < |pre| :: pre[k] != '`'
    requires forall k | 0 <= k < |body| :: body[k] != '`'
    ensures SearchedText(pre + "```json" + body + "```" + post) == Strip(body)
  {
    var s := pre + "```json" + body + "```" + post;
    var k := |pre| + 7;
    Parts(s, pre, "```json", body, "```", post, k);
    FencedSearch(s, |pre|, k + |body|, body);
  }

  /** A text with a `json`-tagged fence at `p`, no backtick before it, then
      `body` without a backtick, then a fence at `e`. */
  lemma FencedSearch(s: string, p: nat, e: nat, body: string)
    requires p + 7 <= e && e + 3 <= |s|
    requires s[p..p + 7] == "```json" && s[e..e + 3] == Fence
    requires forall j | 0 <= j < p :: s[j] != '`'
    requires s[p + 7..e] == body
    requires forall j | 0 <= j < |body| :: body[j] != '`'
    ensures SearchedText(s) == Strip(body)
  {
    var k := p + 7;
    var ws := LeadingSpaces(body);
    assert forall j | k <= j < e :: s[j] == body[j - k];
    assert s[k..] == body + s[e..];
    assert s[e..][0] == s[e..e + 3][0];
    LeadingSpacesAppend(body, s[e..]);
    BlockAt(s, p, e, ws);
    var b := CodeBlock(s).value;
    SearchedInBlock(s, b);
    assert s[b.start..b.end] == body[ws..];
    LeadingSpacesStrip(body, ws);
  }

  /** With a fenced block, the searched text is its stripped contents. */
  lemma SearchedInBlock(s: string, b: Block)
    requires CodeBlock(s).Some? && CodeBlock(s).value == b
    ensures b.start <= b.end <= |s|
    ensures SearchedText(s) == Strip(s[b.start..b.end])
  {
  }

  /** Where the five parts of `s == pre + m + body + c + post` sit, with `body`
      starting at `k`. */
  lemma Parts(s: string, pre: string, m: string, body: string, c: string, post: string, k: nat)
    requires s == pre + m + body + c + post && k == |pre| + |m|
    ensures |s| == k + |body| + |c| + |post|
    ensures s[|pre|..k] == m
    ensures s[k..] == body + (c + post)
    ensures s[k..k + |body|] == body
    ensures s[k + |body|..k + |body| + |c|] == c
    ensures forall j | 0 <= j < |pre| :: s[j] == pre[j]
    ensures forall j | k <= j < k + |body| :: s[j] == body[j - k]
  {
    assert s == pre + m + (body + (c + post));
    assert s[k..] == body + (c + post);
    assert s[k..k + |body|] == s[k..][..|body|];
    assert s[k + |body|..] == c + post;
  }

  /** A text with a `json`-tagged fence at `p`, no backtick before it, and no
      backtick from the tag to the next fence at `e`. */
  lemma BlockAt(s: string, p: nat, e: nat, ws: nat)
    requires p + 7 <= e && e + 3 <= |s|
    requires ws == LeadingSpaces(s[p + 7..])
    requires s[p..p + 7] == "```json" && s[e..e + 3] == Fence
    requires forall j | 0 <= j < p :: s[j] != '`'
    requires forall j | p + 7 <= j < e :: s[j] != '`'
    ensures CodeBlock(s).Some? && CodeBlock(s).value == Block(p, p + 7 + ws, e)
  {
    OpeningFence(s, p);
    JsonTagSkipped(s, p, ws);
    var g := p + 7 + ws;
    assert s[e] == s[e..e + 3][0];
    assert g <= e;
    NoTickNoFence(s, g, e);
    assert OccursAt(s, Fence, e);
    FindAt(s, Fence, g, e);
    CodeBlockOf(s, p, g, e);
  }

  /** The first fence of a text with no backtick before `p` and a tagged fence at `p`. */
  lemma OpeningFence(s: string, p: nat)
    requires p + 7 <= |s| && s[p..p + 7] == "```json"
    requires forall j | 0 <= j < p :: s[j] != '`'
    ensures Find(s, Fence, 0) == Some(p)
  {
    NoTickNoFence(s, 0, p);
    assert OccursAt(s, Fence, p) by { assert s[p..p + 3] == s[p..p + 7][..3]; }
    FindAt(s, Fence, 0, p);
  }

  /** After the opening fence, the `json` tag and the whitespace are skipped. */
  lemma JsonTagSkipped(s: string, p: nat, ws: nat)
    requires p + 7 <= |s| && s[p..p + 7] == "```json"
    requires ws == LeadingSpaces(s[p + 7..])
    ensures AfterPrefix(s, p + 3) == p + 7 + ws
  {
    assert OccursAt(s, "json", p + 3) by { assert s[p + 3..p + 7] == s[p..p + 7][3..]; }
  }

  /** `CodeBlock` from the two searches it makes. */
  lemma CodeBlockOf(s: string, p: nat, g: nat, e: nat)
    requires p + 3 <= |s|
    requires Find(s, Fence, 0) == Some(p) && AfterPrefix(s, p + 3) == g && Find(s, Fence, g) == Some(e)
    ensures CodeBlock(s).Some? && CodeBlock(s).value == Block(p, g, e)
  {
  }

  /** Leading whitespace stops at a non-space that follows. */
  lemma {:induction false} LeadingSpacesAppend(a: string, b: string)
    requires |b| > 0 && !IsSpace(b[0])
    ensures LeadingSpaces(a + b) == LeadingSpaces(a)
  {
    if |a| > 0 {
      assert (a + b)[0] == a[0];
      assert (a + b)[1..] == a[1..] + b;
      LeadingSpacesAppend(a[1..], b);
    } else {
      assert a + b == b;
    }
  }

  /** A stretch without a backtick starts no fence. */
  lemma NoTickNoFence(s: string, from: nat, to: nat)
    requires from <= to <= |s|
    requires forall j | from <= j < to :: s[j] != '`'
    ensures forall j | from <= j < to :: !OccursAt(s, Fence, j)
  {
    forall j | from <= j < to ensures !OccursAt(s, Fence, j) {
      if j + 3 <= |s| { assert s[j..j + 3][0] == s[j]; }
    }
  }

  lemma FindAt(s: string, pat: string, from: nat, at: nat)
    requires from <= at && OccursAt(s, pat, at)
    requires forall j | from <= j < at :: !OccursAt(s, pat, j)
    ensures Find(s, pat, from) == Some(at)
  {
  }

  /** Stripping after removing some leading whitespace is stripping. */
  lemma LeadingSpacesStrip(body: string, ws: nat)
    requires ws <= LeadingSpaces(body)
    ensures Strip(body[ws..]) == Strip(body)
  {
    var t := body[ws..];
    LeadingSpacesDrop(body, ws);
    assert t[LeadingSpaces(t)..] == body[LeadingSpaces(body)..];
  }

  lemma {:induction false} LeadingSpacesDrop(s: string, n: nat)
    requires n <= LeadingSpaces(s)
    ensures LeadingSpaces(s[n..]) == LeadingSpaces(s) - n
  {
    if n > 0 {
      assert IsSpace(s[0]);
      assert s[1..][n - 1..] == s[n..];
      LeadingSpacesDrop(s[1..], n - 1);
    }
  }
}
