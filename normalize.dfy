/** The normalisation helpers of fetcher.py: markup stripping and whitespace
    collapsing (`_clean_html`), the keyword allow-list (`_matches_filter`) and
    the choice of publication date (`_parse_date`). */
module Normalizer {
  import opened Wrappers
  import opened TextUtil

  /** Display length every excerpt is cut to (`[:500]`). */
  const SummaryLimit: nat := 500

  /** `html.unescape`, left uninterpreted: the entity table is not modelled. */
  type Unescaper = string -> string

  // ---------------------------------------------------------------------------
  // re.sub(r"<[^>]+>", " ", raw)
  // ---------------------------------------------------------------------------

  /** Index of the first '>' at or after `i`, or |s| when there is none. */
  function CloseFrom(s: string, i: nat): (j: nat)
    requires i <= |s|
    ensures i <= j <= |s|
    ensures j < |s| ==> s[j] == '>'
    ensures forall k :: i <= k < j ==> s[k] != '>'
    decreases |s| - i
  {
    if i == |s| || s[i] == '>' then i else CloseFrom(s, i + 1)
  }

  /** The pattern `<[^>]+>` matches at position `i`: a '<', at least one
      character other than '>', then the first '>' after it. */
  predicate TagAt(s: string, i: nat)
    requires i < |s|
  {
    s[i] == '<' && var j := CloseFrom(s, i + 1); i + 2 <= j < |s|
  }

  predicate NoTag(s: string) {
    forall i :: 0 <= i < |s| ==> !TagAt(s, i)
  }

  /** Left-to-right, non-overlapping replacement of every tag by one space. */
  function StripTags(s: string): string
    decreases |s|
  {
    if s == [] then []
    else if TagAt(s, 0) then " " + StripTags(s[CloseFrom(s, 1) + 1..])
    else [s[0]] + StripTags(s[1..])
  }

  lemma {:induction false} CloseFromCons(c: char, t: string, i: nat)
    requires i <= |t|
    ensures CloseFrom([c] + t, i + 1) == CloseFrom(t, i) + 1
    decreases |t| - i
  {
    var s := [c] + t;
    assert s[i + 1..] == t[i..];
    if i < |t| && t[i] != '>' {
      CloseFromCons(c, t, i + 1);
    }
  }

  lemma TagAtCons(c: char, t: string, i: nat)
    requires i < |t|
    ensures TagAt([c] + t, i + 1) == TagAt(t, i)
  {
    CloseFromCons(c, t, i + 1);
  }

  /** Every character of the output is a character of the input or the space
      that replaced a tag. */
  lemma {:induction false} StripTagsChars(s: string)
    ensures forall k :: 0 <= k < |StripTags(s)| ==> StripTags(s)[k] == ' ' || StripTags(s)[k] in s
    decreases |s|
  {
    if s == [] {
    } else if TagAt(s, 0) {
      var rest := s[CloseFrom(s, 1) + 1..];
      StripTagsChars(rest);
      assert forall c :: c in rest ==> c in s;
    } else {
      StripTagsChars(s[1..]);
      assert forall c :: c in s[1..] ==> c in s;
    }
  }

  lemma {:induction false} NoTagCons(c: char, t: string)
    requires NoTag(t)
    requires c == '<' ==> !TagAt([c] + t, 0)
    ensures NoTag([c] + t)
  {
    var s := [c] + t;
    forall i | 0 <= i < |s|
      ensures !TagAt(s, i)
    {
      if i > 0 {
        TagAtCons(c, t, i - 1);
      }
    }
  }

  /** After the substitution no `<[^>]+>` match is left. */
  lemma {:induction false} StripTagsLeavesNoTag(s: string)
    ensures NoTag(StripTags(s))
    decreases |s|
  {
    if s == [] {
    } else if TagAt(s, 0) {
      StripTagsLeavesNoTag(s[CloseFrom(s, 1) + 1..]);
      NoTagCons(' ', StripTags(s[CloseFrom(s, 1) + 1..]));
    } else {
      var t := s[1..];
      var r := StripTags(t);
      StripTagsLeavesNoTag(t);
      if s[0] == '<' {
        var j := CloseFrom(s, 1);
        CloseFromCons('<', r, 0);
        if j == |s| {
          StripTagsChars(t);
          assert forall k :: 0 <= k < |t| ==> t[k] == s[k + 1];
          assert '>' !in r;
        } else {
          assert j == 1 && t[0] == '>';
          assert !TagAt(t, 0);
          assert r[0] == '>';
        }
      }
      NoTagCons(s[0], r);
    }
  }

  /** Text without a '<' has no tag to remove. */
  lemma {:induction false} StripTagsPlainText(s: string)
    requires '<' !in s
    ensures StripTags(s) == s
    decreases |s|
  {
    if s != [] {
      assert s[0] != '<';
      assert forall c :: c in s[1..] ==> c in s;
      StripTagsPlainText(s[1..]);
    }
  }

  // ---------------------------------------------------------------------------
  // _clean_html, _matches_filter, _parse_date
  // ---------------------------------------------------------------------------

  /** `_clean_html`: replace tags by spaces, decode entities, collapse whitespace. */
  function CleanHtml(raw: string, unescape: Unescaper): (r: string)
    ensures Tidy(r)
  {
    var decoded := unescape(StripTags(raw));
    CollapseIsTidy(decoded);
    Collapse(decoded)
  }

  /** An empty (or `None`) input cleans to the empty string, given that
      decoding the empty string gives the empty string. */
  lemma CleanHtmlEmpty(unescape: Unescaper)
    requires unescape([]) == []
    ensures CleanHtml([], unescape) == []
  {
  }

  /** `_matches_filter`: `any(kw.lower() in text.lower() for kw in keywords)`. */
  function MatchesFilter(text: string, keywords: seq<string>): bool {
    if keywords == [] then false
    else Contains(Lower(text), Lower(keywords[0])) || MatchesFilter(text, keywords[1..])
  }

  /** The keyword test holds exactly when some keyword, lower-cased, occurs in
      the lower-cased text; in particular it is false for no keywords. */
  lemma {:induction false} MatchesFilterIff(text: string, keywords: seq<string>)
    ensures MatchesFilter(text, keywords) <==>
            exists k :: 0 <= k < |keywords| && Contains(Lower(text), Lower(keywords[k]))
    decreases |keywords|
  {
    if keywords != [] {
      MatchesFilterIff(text, keywords[1..]);
      assert forall k :: 0 <= k < |keywords| - 1 ==> keywords[1..][k] == keywords[k + 1];
      if MatchesFilter(text, keywords[1..]) {
        var k :| 0 <= k < |keywords[1..]| && Contains(Lower(text), Lower(keywords[1..][k]));
        assert Contains(Lower(text), Lower(keywords[k + 1]));
      }
    }
  }

  /** The test ignores the (ASCII) case of the text. */
  lemma MatchesFilterIgnoresCase(text: string, keywords: seq<string>)
    ensures MatchesFilter(Lower(text), keywords) == MatchesFilter(text, keywords)
  {
    LowerIdempotent(text);
    MatchesFilterIff(text, keywords);
    MatchesFilterIff(Lower(text), keywords);
  }

  /** The keep/drop decision of `fetch_all_feeds` (fetcher.py:111): filter only
      when the feed declares keywords, on `title + " " + summary`. */
  function KeepEntry(keywords: seq<string>, title: string, summary: string): (keep: bool)
    ensures keywords == [] ==> keep
    ensures keywords != [] ==>
              (keep <==> exists k :: 0 <= k < |keywords| &&
                           Contains(Lower(title + " " + summary), Lower(keywords[k])))
  {
    MatchesFilterIff(title + " " + summary, keywords);
    keywords == [] || MatchesFilter(title + " " + summary, keywords)
  }

  /** `_parse_date`, choice only: the published stamp when present, else the
      updated one, else none. A stamp stands for the ISO text its conversion
      would produce; the conversion itself is not modelled. */
  function ParseDate(published: Option<string>, updated: Option<string>): (r: Option<string>)
    ensures r.Some? <==> published.Some? || updated.Some?
    ensures r.Some? ==> r == published || r == updated
    ensures published.Some? ==> r == published
  {
    if published.Some? then published
    else if updated.Some? then updated
    else None
  }
}
