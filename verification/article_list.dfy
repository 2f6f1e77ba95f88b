/** The list view's card for one stored article: the badge label and the content
    preview, as pure functions of the record. */
module ArticleList {
  import opened Seqs
  import opened Responses
  import opened Records
  import Enrichment

  /** Characters of content the preview starts from. */
  const PreviewLength: nat := 100

  /** The preview of an article with no content. */
  const NoPreview := "No preview available..."

  const RewrittenLabel := "AI REWRITTEN"
  const OriginalLabel := "ORIGINAL"

  /** Position of the first `>` of `s` at or after `i`, or `|s|` when there is
      none. */
  function NextClose(s: string, i: nat): (k: nat)
    requires i <= |s|
    ensures i <= k <= |s|
    ensures forall t :: i <= t < k ==> s[t] != '>'
    ensures k == |s| || s[k] == '>'
    decreases |s| - i
  {
    if i == |s| || s[i] == '>' then i else NextClose(s, i + 1)
  }

  /** Where what `<[^>]*>?` matches at position `i` ends: after the `<`, everything
      up to the next `>`, and that `>` when there is one. */
  function TagEnd(s: string, i: nat): (m: nat)
    requires i < |s| && s[i] == '<'
    ensures i < m <= |s|
    ensures forall t :: i <= t < m - 1 ==> s[t] != '>'
    ensures m < |s| ==> s[m - 1] == '>'
  {
    var k := NextClose(s, i);
    if k < |s| then k + 1 else |s|
  }

  /** The global replace from position `i` on: a `<` is removed together with its
      tag, any other character is kept, and the scan goes on after what it
      consumed. */
  function StripFrom(s: string, i: nat): (r: string)
    requires i <= |s|
    ensures |r| <= |s| - i
    ensures '<' !in r
    ensures (forall t :: i <= t < |s| ==> s[t] != '<') ==> r == s[i..]
    decreases |s| - i
  {
    if i == |s| then ""
    else if s[i] == '<' then StripFrom(s, TagEnd(s, i))
    else
      var r := [s[i]] + StripFrom(s, i + 1);
      assert (forall t :: i <= t < |s| ==> s[t] != '<') ==> r == s[i..] by {
        assert s[i..] == [s[i]] + s[i + 1..];
      }
      r
  }

  /** `s.replace(/<[^>]*>?/gm, '')`: scanning left to right, every `<` is removed
      together with everything up to and including the next `>`, or up to the end
      when no `>` follows; all other characters are kept. */
  function StripTags(s: string): (r: string)
    ensures |r| <= |s|
    ensures '<' !in r
    ensures '<' !in s ==> r == s
  {
    assert s[0..] == s;
    StripFrom(s, 0)
  }

  /** The `<` at position `j` is still open at position `k`: no `>` lies in
      between, `k` excluded. */
  ghost predicate OpenFrom(s: string, j: nat, k: nat)
    requires k <= |s|
  {
    j < |s| && s[j] == '<' && forall t :: j <= t < k ==> s[t] != '>'
  }

  /** Reference reading of the pattern, position by position: position `k` of `s`
      is removed exactly when some `<` at or before it is still open there. */
  ghost predicate InTag(s: string, k: nat)
    requires k < |s|
  {
    exists j :: 0 <= j <= k && OpenFrom(s, j, k)
  }

  /** The characters of `s` from position `i` on that are not in a tag. */
  ghost function Outside(s: string, i: nat): string
    requires i <= |s|
    decreases |s| - i
  {
    if i == |s| then "" else (if InTag(s, i) then "" else [s[i]]) + Outside(s, i + 1)
  }

  /** Every `<` before position `i` is closed by a `>` before `i`. */
  ghost predicate ClosedBefore(s: string, i: nat)
    requires i <= |s|
  {
    forall j :: 0 <= j < i ==> !OpenFrom(s, j, i)
  }

  /** Positions that are all in tags contribute nothing. */
  lemma {:induction false} SkipInTag(s: string, i: nat, m: nat)
    requires i <= m <= |s|
    requires forall k :: i <= k < m ==> InTag(s, k)
    ensures Outside(s, i) == Outside(s, m)
    decreases m - i
  {
    if i < m {
      SkipInTag(s, i + 1, m);
    }
  }

  /** Every position of a tag that starts at `i` is in a tag. */
  lemma TagCovered(s: string, i: nat)
    requires i < |s| && s[i] == '<'
    ensures forall k :: i <= k < TagEnd(s, i) ==> InTag(s, k)
  {
    forall k | i <= k < TagEnd(s, i)
      ensures InTag(s, k)
    {
      assert OpenFrom(s, i, k);
    }
  }

  /** A tag contributes no character. */
  lemma TagContributesNothing(s: string, i: nat)
    requires i < |s| && s[i] == '<'
    ensures Outside(s, i) == Outside(s, TagEnd(s, i))
  {
    TagCovered(s, i);
    SkipInTag(s, i, TagEnd(s, i));
  }

  /** After a tag that ends with `>`, every `<` so far is closed. */
  lemma TagCloses(s: string, i: nat)
    requires i < |s| && s[i] == '<'
    requires ClosedBefore(s, i)
    requires TagEnd(s, i) < |s|
    ensures ClosedBefore(s, TagEnd(s, i))
  {
    var m := TagEnd(s, i);
    forall j | 0 <= j < m
      ensures !OpenFrom(s, j, m)
    {
      if j < i {
        assert !OpenFrom(s, j, i);
      } else {
        assert s[m - 1] == '>';
      }
    }
  }

  /** Outside a tag, a character other than `<` is kept and closes nothing new. */
  lemma PlainKept(s: string, i: nat)
    requires i < |s| && s[i] != '<'
    requires ClosedBefore(s, i)
    ensures !InTag(s, i)
    ensures ClosedBefore(s, i + 1)
  {
    forall j | 0 <= j <= i
      ensures !OpenFrom(s, j, i)
    {
    }
    var next := i + 1;
    forall j | 0 <= j < next
      ensures !OpenFrom(s, j, next)
    {
      if j < i {
        assert !OpenFrom(s, j, i);
      }
    }
  }

  /** From a position where every `<` is closed, the scan keeps exactly the
      characters the position-wise reading keeps. */
  lemma {:induction false} StripFromIsOutside(s: string, i: nat)
    requires i <= |s|
    requires ClosedBefore(s, i)
    ensures StripFrom(s, i) == Outside(s, i)
    decreases |s| - i
  {
    if i < |s| {
      if s[i] == '<' {
        var m := TagEnd(s, i);
        TagContributesNothing(s, i);
        if m < |s| {
          TagCloses(s, i);
          StripFromIsOutside(s, m);
        }
      } else {
        PlainKept(s, i);
        StripFromIsOutside(s, i + 1);
      }
    }
  }

  /** The scan removes exactly the characters the position-wise reading puts in a
      tag. */
  lemma StripTagsRemovesTags(s: string)
    ensures StripTags(s) == Outside(s, 0)
  {
    StripFromIsOutside(s, 0);
  }

  /** A sequence is a subsequence of anything it is a subsequence of a suffix of. */
  lemma {:induction false} SubsequenceOfSuffix(a: string, b: string, n: nat)
    requires n <= |b|
    requires IsSubsequence(a, b[n..])
    ensures IsSubsequence(a, b)
    decreases n
  {
    if n > 0 {
      assert b[1..][n - 1..] == b[n..];
      SubsequenceOfSuffix(a, b[1..], n - 1);
    }
  }

  /** The scan only deletes characters. */
  lemma {:induction false} StripFromIsSubsequence(s: string, i: nat)
    requires i <= |s|
    ensures IsSubsequence(StripFrom(s, i), s[i..])
    decreases |s| - i
  {
    if i < |s| {
      if s[i] == '<' {
        var m := TagEnd(s, i);
        StripFromIsSubsequence(s, m);
        assert s[i..][m - i..] == s[m..];
        SubsequenceOfSuffix(StripFrom(s, i), s[i..], m - i);
      } else {
        StripFromIsSubsequence(s, i + 1);
        assert s[i..][1..] == s[i + 1..];
        assert ([s[i]] + StripFrom(s, i + 1))[1..] == StripFrom(s, i + 1);
      }
    }
  }

  /** Stripping only deletes characters. */
  lemma StripTagsIsSubsequence(s: string)
    ensures IsSubsequence(StripTags(s), s)
  {
    StripFromIsSubsequence(s, 0);
    assert s[0..] == s;
  }

  /** The preview line of a card: for missing or empty content the placeholder;
      otherwise the first 100 characters with tag-like runs removed. */
  function Preview(content: Option<string>): (p: string)
    ensures content.None? || content == Some("") ==> p == NoPreview
    ensures |p| <= PreviewLength
    ensures '<' !in p
    ensures content.Some? && content.value != "" ==> IsSubsequence(p, Take(content.value, PreviewLength))
    ensures content.Some? && content.value != "" && '<' !in Take(content.value, PreviewLength) ==>
      p == Take(content.value, PreviewLength)
  {
    match content
    case Some(text) =>
      if text == "" then NoPreview
      else
        StripTagsIsSubsequence(Take(text, PreviewLength));
        StripTags(Take(text, PreviewLength))
    case None => NoPreview
  }

  /** The badge label: `AI REWRITTEN` exactly when `is_updated` is truthy. */
  function Badge(f: Flag): (text: string)
    ensures text == RewrittenLabel <==> Truthy(f)
    ensures text == OriginalLabel <==> !Truthy(f)
  {
    if Truthy(f) then RewrittenLabel else OriginalLabel
  }

  /** What one card shows: the badge, the title, the preview, and the article id
      its link points to. */
  datatype Card = Card(id: int, badge: string, title: string, preview: string)

  function CardOf(a: Article): Card {
    Card(a.id, Badge(a.isUpdated), a.title, Preview(a.content))
  }

  /** `articles.map(...)`: one card per article, in the order the API lists them. */
  function Cards(articles: seq<Article>): (cards: seq<Card>)
    ensures |cards| == |articles|
    ensures forall i :: 0 <= i < |articles| ==> cards[i] == CardOf(articles[i])
  {
    if |articles| == 0 then [] else [CardOf(articles[0])] + Cards(articles[1..])
  }

  /** Every article the worker would pick is shown as `ORIGINAL`; the converse
      fails: an article whose flag is `null` is shown as `ORIGINAL` but the worker
      never picks it. */
  lemma PendingShownOriginal(a: Article)
    ensures Enrichment.IsPending(a) ==> Badge(a.isUpdated) == OriginalLabel
    ensures a.isUpdated == Null ==> !Enrichment.IsPending(a) && Badge(a.isUpdated) == OriginalLabel
  {
  }
}
