/** Recognition of the three playlist locator forms: a bare catalog id, a
    `spotify:playlist:<id>` URI and an `open.spotify.com/playlist/<id>` URL.
    The model follows the regular expressions literally: the bare-id pattern
    is anchored at both ends, the other two are unanchored searches that
    succeed anywhere in the input (no scheme is demanded) and capture the
    longest alphanumeric run after their prefix. */
module Locator {
  import opened Wrappers
  import opened Text

  /** The literal part of `/spotify:playlist:([a-zA-Z0-9]+)/` */
  const UriPrefix: string := "spotify:playlist:"

  /** The literal part of `/open\.spotify\.com\/playlist\/([a-zA-Z0-9]+)/` */
  const UrlPrefix: string := "open.spotify.com/playlist/"

  /** `/^[a-zA-Z0-9]+$/`: without the multiline flag `^` and `$` only match
      at the ends of the input, so the whole input is one alphanumeric run. */
  predicate IsBareId(s: string) {
    IsAlnumString(s)
  }

  /** A search for `prefix[a-zA-Z0-9]+` can succeed starting at position `j`:
      the prefix occurs there and at least one alphanumeric follows it. */
  predicate MatchesAt(s: string, prefix: string, j: nat) {
    j + |prefix| < |s| && s[j..j + |prefix|] == prefix && IsAsciiAlnum(s[j + |prefix|])
  }

  /** `id` is the whole alphanumeric run of `s` that begins at `start`:
      it is there, it is non-empty, and the run cannot be extended. */
  predicate MaximalRunAt(s: string, start: nat, id: string) {
    && start + |id| <= |s|
    && s[start..start + |id|] == id
    && IsAlnumString(id)
    && (start + |id| == |s| || !IsAsciiAlnum(s[start + |id|]))
  }

  /** The result of `RegExp.prototype.exec`: where the match starts, and
      capture group 1. */
  datatype Match = Match(index: nat, group: string)

  /** The first position at or after `from` where the search can succeed */
  function FindMatch(s: string, prefix: string, from: nat): (r: Option<nat>)
    ensures r.Some? ==> from <= r.value && MatchesAt(s, prefix, r.value)
    ensures r.Some? ==> forall k :: from <= k < r.value ==> !MatchesAt(s, prefix, k)
    ensures r.None? ==> forall k :: from <= k ==> !MatchesAt(s, prefix, k)
    decreases |s| - from
  {
    if from >= |s| then None
    else if MatchesAt(s, prefix, from) then Some(from)
    else FindMatch(s, prefix, from + 1)
  }

  /** What the greedy `[a-zA-Z0-9]+` consumes from the front of `t` */
  function AlnumRun(t: string): (r: string)
    ensures r <= t
    ensures forall i :: 0 <= i < |r| ==> IsAsciiAlnum(r[i])
    ensures |r| == |t| || !IsAsciiAlnum(t[|r|])
  {
    if |t| > 0 && IsAsciiAlnum(t[0]) then [t[0]] + AlnumRun(t[1..]) else []
  }

  /** `s.match(/prefix([a-zA-Z0-9]+)/)`: the leftmost match, with the
      maximal alphanumeric run after the prefix as its capture; no match
      when the search fails at every position. */
  function Exec(s: string, prefix: string): (r: Option<Match>)
    ensures r.None? <==> forall j: nat :: !MatchesAt(s, prefix, j)
    ensures r.Some? ==> MatchesAt(s, prefix, r.value.index)
    ensures r.Some? ==> forall k :: 0 <= k < r.value.index ==> !MatchesAt(s, prefix, k)
    ensures r.Some? ==> MaximalRunAt(s, r.value.index + |prefix|, r.value.group)
  {
    match FindMatch(s, prefix, 0)
    case None => None
    case Some(j) =>
      var start := j + |prefix|;
      var group := AlnumRun(s[start..]);
      assert s[start..start + |group|] == group;
      Some(Match(j, group))
  }

  /** `/prefix[a-zA-Z0-9]+/.test(s)`: the search succeeds somewhere */
  function Test(s: string, prefix: string): (b: bool)
    ensures b <==> exists j: nat :: MatchesAt(s, prefix, j)
  {
    FindMatch(s, prefix, 0).Some?
  }

  /** `extractPlaylistId`: the input itself when it is a bare id, else the
      capture of the URI pattern, else the capture of the URL pattern,
      else none. */
  function ExtractPlaylistId(s: string): (r: Option<string>)
    ensures IsBareId(s) ==> r == Some(s)
    ensures r.Some? ==> IsAlnumString(r.value)
    ensures r.None? <==>
      && !IsBareId(s)
      && (forall j: nat :: !MatchesAt(s, UriPrefix, j))
      && (forall j: nat :: !MatchesAt(s, UrlPrefix, j))
  {
    if IsBareId(s) then Some(s)
    else match Exec(s, UriPrefix)
      case Some(m) => Some(m.group)
      case None =>
        match Exec(s, UrlPrefix)
        case Some(m) => Some(m.group)
        case None => None
  }

  /** Two maximal runs that start at the same position are the same run. */
  lemma MaximalRunUnique(s: string, start: nat, a: string, b: string)
    requires MaximalRunAt(s, start, a) && MaximalRunAt(s, start, b)
    ensures a == b
  {
    assert forall n :: 0 <= n < |a| ==> s[start + n] == a[n];
    assert forall n :: 0 <= n < |b| ==> s[start + n] == b[n];
  }

  /** Two positions that are both leftmost matches are the same position. */
  lemma LeftmostUnique(s: string, prefix: string, j: nat, k: nat)
    requires MatchesAt(s, prefix, j) && MatchesAt(s, prefix, k)
    requires forall i :: 0 <= i < j ==> !MatchesAt(s, prefix, i)
    requires forall i :: 0 <= i < k ==> !MatchesAt(s, prefix, i)
    ensures j == k
  {
  }

  /** The URI form: when `s` is not a bare id and the URI pattern first
      matches at `j`, the id is the maximal alphanumeric run after the
      prefix at `j`, whatever else `s` contains (a URL form included). */
  lemma ExtractFromUri(s: string, j: nat, id: string)
    requires !IsBareId(s)
    requires MatchesAt(s, UriPrefix, j)
    requires forall k :: 0 <= k < j ==> !MatchesAt(s, UriPrefix, k)
    requires MaximalRunAt(s, j + |UriPrefix|, id)
    ensures ExtractPlaylistId(s) == Some(id)
  {
    var m := Exec(s, UriPrefix);
    LeftmostUnique(s, UriPrefix, m.value.index, j);
    MaximalRunUnique(s, j + |UriPrefix|, m.value.group, id);
  }

  /** The URL form is only consulted when the URI pattern matches nowhere;
      then the id is the maximal alphanumeric run after its leftmost match. */
  lemma ExtractFromUrl(s: string, j: nat, id: string)
    requires !IsBareId(s)
    requires forall k: nat :: !MatchesAt(s, UriPrefix, k)
    requires MatchesAt(s, UrlPrefix, j)
    requires forall k :: 0 <= k < j ==> !MatchesAt(s, UrlPrefix, k)
    requires MaximalRunAt(s, j + |UrlPrefix|, id)
    ensures ExtractPlaylistId(s) == Some(id)
  {
    var m := Exec(s, UrlPrefix);
    LeftmostUnique(s, UrlPrefix, m.value.index, j);
    MaximalRunUnique(s, j + |UrlPrefix|, m.value.group, id);
  }

  /** An input that matches any of the three patterns contains an
      alphanumeric character, so it is not blank. */
  lemma ResolvableIsNotBlank(s: string)
    requires ExtractPlaylistId(s).Some?
    ensures !IsBlank(s)
  {
    var k: nat;
    if IsBareId(s) {
      k := 0;
    } else if m: nat :| MatchesAt(s, UriPrefix, m) {
      k := m + |UriPrefix|;
    } else {
      var m: nat :| MatchesAt(s, UrlPrefix, m);
      k := m + |UrlPrefix|;
    }
    AlnumIsNotWhitespace(s[k]);
  }
}

/** The locator forms shown to users, resolved. */
module LocatorExamples {
  import opened Wrappers
  import opened Text
  import opened Locator

  const SampleId: string := "37i9dQZF1DXcBWIGoYBM5M"

  lemma SampleUriShape()
    ensures !IsBareId(UriPrefix + SampleId)
    ensures MatchesAt(UriPrefix + SampleId, UriPrefix, 0)
    ensures MaximalRunAt(UriPrefix + SampleId, |UriPrefix|, SampleId)
  {
    var uri := UriPrefix + SampleId;
    assert uri[7] == ':';
    assert uri[..|UriPrefix|] == UriPrefix;
    assert uri[|UriPrefix|..|UriPrefix| + |SampleId|] == SampleId;
  }

  lemma ResolveUriSample()
    ensures ExtractPlaylistId(UriPrefix + SampleId) == Some(SampleId)
  {
    var uri := UriPrefix + SampleId;
    SampleUriShape();
    ExtractFromUri(uri, 0, SampleId);
  }

  /** The sample id is all letters and digits. */
  lemma SampleIdIsBare()
    ensures IsBareId(SampleId)
  {
    forall i | 0 <= i < |SampleId|
      ensures IsAsciiAlnum(SampleId[i])
    {
    }
  }

  /** The help text's bare id resolves to itself. */
  lemma ResolveBareSample()
    ensures ExtractPlaylistId(SampleId) == Some(SampleId)
  {
    SampleIdIsBare();
  }

  /** The scheme of the help text's URL */
  const Scheme: string := "https://"

  /** In the scheme, ':' only sits at index 5, and there is no 'o'. */
  lemma SchemeShape()
    ensures forall k :: 0 <= k < |Scheme| && k != 5 ==> Scheme[k] != ':'
    ensures forall k :: 0 <= k < |Scheme| ==> Scheme[k] != 'o'
    ensures Scheme[5] == ':'
  {
  }

  /** Neither the URL prefix nor the sample id contains a ':'. */
  lemma TailHasNoColon()
    ensures ':' !in UrlPrefix + SampleId
  {
    assert ':' !in UrlPrefix;
    assert ':' !in SampleId;
  }

  /** The help text's URL has a single ':' (at index 5), no 'o' before the
      host, and the sample id at its end. */
  lemma SampleUrlShape(s: string)
    requires s == Scheme + (UrlPrefix + SampleId)
    ensures forall k :: 0 <= k < |s| && k != 5 ==> s[k] != ':'
    ensures forall k :: 0 <= k < 8 ==> s[k] != 'o'
    ensures s[5] == ':'
    ensures s[8..8 + |UrlPrefix|] == UrlPrefix
    ensures s[8 + |UrlPrefix|..] == SampleId
  {
    var tail := UrlPrefix + SampleId;
    SchemeShape();
    TailHasNoColon();
    forall k | 8 <= k < |s|
      ensures s[k] != ':'
    {
      assert s[k] == tail[k - 8];
    }
    assert s[8..] == tail;
    assert tail[..|UrlPrefix|] == UrlPrefix;
    assert tail[|UrlPrefix|..] == SampleId;
  }

  /** The help text's full URL resolves to the sample id: the URI pattern
      matches nowhere (its ':' would have to fall at index 5), and the URL
      pattern's leftmost match is just after the scheme. */
  lemma ResolveUrlSample()
    ensures ExtractPlaylistId(Scheme + (UrlPrefix + SampleId)) == Some(SampleId)
  {
    var s := Scheme + (UrlPrefix + SampleId);
    var start := 8 + |UrlPrefix|;
    SampleUrlShape(s);
    SampleIdIsBare();
    assert !IsBareId(s) by { assert !IsAsciiAlnum(s[5]); }
    forall j: nat
      ensures !MatchesAt(s, UriPrefix, j)
    {
      if j + |UriPrefix| < |s| {
        assert UriPrefix[7] == ':';
        assert s[j + 7] != ':';
      }
    }
    assert MatchesAt(s, UrlPrefix, 8) by {
      assert s[start] == SampleId[0];
    }
    forall k | 0 <= k < 8
      ensures !MatchesAt(s, UrlPrefix, k)
    {
      assert UrlPrefix[0] == 'o';
      assert s[k..k + |UrlPrefix|][0] == s[k] || k + |UrlPrefix| >= |s|;
    }
    assert s[start..start + |SampleId|] == SampleId;
    ExtractFromUrl(s, 8, SampleId);
  }

  lemma RejectNonLocator()
    ensures ExtractPlaylistId("not a url") == None
  {
    assert !IsBareId("not a url") by { assert "not a url"[3] == ' '; }
  }
}
