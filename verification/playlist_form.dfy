/** The playlist entry form: a list of text entries the user edits, a
    validity test per entry, and the submission that hands the non-blank
    entries to the game. */
module PlaylistForm {
  import opened Wrappers
  import opened Text
  import opened Locator

  /** The form starts with one empty entry. */
  const InitialUrls: seq<string> := [""]

  /** The edits a user can make to the entry list: add a row, remove row
      `index`, or type `value` into row `row` (always a rendered row). */
  datatype FormEdit = AddRow | RemoveRow(index: int) | TypeInto(row: nat, value: string)

  const NoPlaylistMessage: string := "Please add at least one playlist"

  /** The message for the `n`-th non-blank entry (counting from 1) */
  function EntryErrorMessage(n: nat): string {
    "Playlist " + NatToDecimal(n) + ": Invalid Spotify playlist URL or ID"
  }

  /** `addPlaylistInput`: one more empty entry at the end */
  function AddPlaylistInput(urls: seq<string>): (r: seq<string>)
    ensures |r| == |urls| + 1
    ensures r[..|urls|] == urls && r[|urls|] == ""
  {
    urls + [""]
  }

  /** The filter in `removePlaylistInput`: the entries at every position
      other than `index`; an index outside the list drops nothing. */
  function DropPosition(xs: seq<string>, index: int): (r: seq<string>)
    ensures 0 <= index < |xs| ==> |r| == |xs| - 1
    ensures 0 <= index < |xs| ==> forall i :: 0 <= i < index ==> r[i] == xs[i]
    ensures 0 <= index < |xs| ==> forall i :: index <= i < |r| ==> r[i] == xs[i + 1]
    ensures !(0 <= index < |xs|) ==> r == xs
    decreases |xs|
  {
    if |xs| == 0 then []
    else
      var front := xs[..|xs| - 1];
      DropPosition(front, index) + (if index == |xs| - 1 then [] else [xs[|xs| - 1]])
  }

  /** `removePlaylistInput`: removes entry `index`, but never the last
      remaining entry. */
  function RemovePlaylistInput(urls: seq<string>, index: int): (r: seq<string>)
    ensures |urls| <= 1 ==> r == urls
    ensures |urls| >= 1 ==> |r| >= 1
    ensures |urls| > 1 && 0 <= index < |urls| ==>
      && |r| == |urls| - 1
      && r == urls[..index] + urls[index + 1..]
    ensures !(0 <= index < |urls|) ==> r == urls
  {
    if |urls| > 1 then
      var r := DropPosition(urls, index);
      assert 0 <= index < |urls| ==> r == urls[..index] + urls[index + 1..];
      r
    else urls
  }

  /** `updatePlaylistUrl`: replaces entry `index` and nothing else. The form
      only calls it with the position of a rendered entry. */
  function UpdatePlaylistUrl(urls: seq<string>, index: int, value: string): (r: seq<string>)
    requires 0 <= index < |urls|
    ensures |r| == |urls|
    ensures r[index] == value
    ensures forall i :: 0 <= i < |urls| && i != index ==> r[i] == urls[i]
  {
    urls[index := value]
  }

  /** One edit of the entry list. Only rendered rows can be typed into,
      so typing into a position past the end changes nothing. */
  function ApplyEdit(urls: seq<string>, e: FormEdit): seq<string> {
    match e
    case AddRow => AddPlaylistInput(urls)
    case RemoveRow(index) => RemovePlaylistInput(urls, index)
    case TypeInto(row, value) =>
      if row < |urls| then UpdatePlaylistUrl(urls, row, value) else urls
  }

  /** The entry list after a sequence of edits, applied in order */
  function ApplyEdits(urls: seq<string>, edits: seq<FormEdit>): seq<string>
    decreases |edits|
  {
    if |edits| == 0 then urls
    else ApplyEdit(ApplyEdits(urls, edits[..|edits| - 1]), edits[|edits| - 1])
  }

  /** Starting from the initial single empty entry, no sequence of edits
      leaves the form without an entry row. */
  lemma {:induction false} FormNeverEmpty(edits: seq<FormEdit>)
    ensures |ApplyEdits(InitialUrls, edits)| >= 1
    decreases |edits|
  {
    if |edits| > 0 {
      FormNeverEmpty(edits[..|edits| - 1]);
    }
  }

  /** `validatePlaylistUrl`: a blank entry is invalid; otherwise one of the
      three locator patterns must match the untrimmed entry. */
  function ValidatePlaylistUrl(url: string): (ok: bool)
    ensures IsBlank(url) ==> !ok
  {
    TrimEmptyIffBlank(url);
    if Trim(url) == [] then false
    else IsBareId(url) || Test(url, UriPrefix) || Test(url, UrlPrefix)
  }

  /** The form accepts exactly the entries the catalog client can resolve
      to a playlist id: the two use the same patterns. */
  lemma ValidateIffResolvable(url: string)
    ensures ValidatePlaylistUrl(url) <==> ExtractPlaylistId(url).Some?
  {
    TrimEmptyIffBlank(url);
    if ExtractPlaylistId(url).Some? {
      ResolvableIsNotBlank(url);
    }
  }

  /** The entries that pass `keep`, in order, each as often as it occurs */
  function Filter(xs: seq<string>, keep: string -> bool): (r: seq<string>)
    ensures |r| <= |xs|
    ensures forall u :: u in r <==> u in xs && keep(u)
    decreases |xs|
  {
    if |xs| == 0 then []
    else
      var front := xs[..|xs| - 1];
      var u := xs[|xs| - 1];
      assert xs == front + [u];
      Filter(front, keep) + (if keep(u) then [u] else [])
  }

  /** Filtering a concatenation filters each part. */
  lemma {:induction false} FilterConcat(a: seq<string>, b: seq<string>, keep: string -> bool)
    ensures Filter(a + b, keep) == Filter(a, keep) + Filter(b, keep)
    decreases |b|
  {
    if |b| == 0 {
      assert a + b == a;
    } else {
      var front := b[..|b| - 1];
      assert (a + b)[..|a + b| - 1] == a + front;
      FilterConcat(a, front, keep);
    }
  }

  /** JavaScript truthiness of `url.trim()` */
  predicate TrimsToText(url: string) {
    Trim(url) != []
  }

  /** The filter at the start of `handleSubmit`: the entries that are not
      blank, kept in order and untrimmed */
  function NonBlankEntries(urls: seq<string>): (r: seq<string>)
    ensures |r| <= |urls|
    ensures forall u :: u in r <==> u in urls && !IsBlank(u)
  {
    forall u: string
      ensures TrimsToText(u) <==> !IsBlank(u)
    {
      TrimEmptyIffBlank(u);
    }
    Filter(urls, TrimsToText)
  }

  /** The filter keeps the entries in input order with their repetitions:
      filtering a concatenation filters each part. */
  lemma NonBlankEntriesConcat(a: seq<string>, b: seq<string>)
    ensures NonBlankEntries(a + b) == NonBlankEntries(a) + NonBlankEntries(b)
  {
    FilterConcat(a, b, TrimsToText);
  }

  /** A single entry is kept exactly when it is not blank. */
  lemma NonBlankEntriesSingle(u: string)
    ensures NonBlankEntries([u]) == if IsBlank(u) then [] else [u]
  {
    assert [u][..0] == [];
    TrimEmptyIffBlank(u);
  }

  /** The positions of `entries` where `ok` fails */
  ghost function FailingPositions(entries: seq<string>, ok: string -> bool): set<nat> {
    set i: nat | i < |entries| && !ok(entries[i])
  }

  /** The positions of entries that fail validation */
  ghost function InvalidPositions(entries: seq<string>): set<nat> {
    FailingPositions(entries, ValidatePlaylistUrl)
  }

  /** Extending the entries by one adds at most its own position. */
  lemma FailingPositionsSnoc(entries: seq<string>, ok: string -> bool)
    requires |entries| > 0
    ensures var n := |entries| - 1;
      |FailingPositions(entries, ok)| ==
        |FailingPositions(entries[..n], ok)| + (if ok(entries[n]) then 0 else 1)
  {
    var n := |entries| - 1;
    var front := entries[..n];
    var extra: set<nat> := if ok(entries[n]) then {} else {n};
    forall i: nat | i in FailingPositions(entries, ok)
      ensures i in FailingPositions(front, ok) + extra
    {
      if i < n {
        assert entries[i] == front[i];
      }
    }
    forall i: nat | i in FailingPositions(front, ok) + extra
      ensures i in FailingPositions(entries, ok)
    {
      if i < n {
        assert entries[i] == front[i];
      }
    }
    assert FailingPositions(entries, ok) == FailingPositions(front, ok) + extra;
    assert n !in FailingPositions(front, ok);
  }

  /** Each entry failing `ok` has its message at its rank among the failing
      entries: the messages follow position order and each names the
      1-based position of its entry. */
  ghost predicate NamesFailures(entries: seq<string>, ok: string -> bool, errors: seq<string>) {
    forall i :: 0 <= i < |entries| && !ok(entries[i]) ==>
      && |FailingPositions(entries[..i], ok)| < |errors|
      && errors[|FailingPositions(entries[..i], ok)|] == EntryErrorMessage(i + 1)
  }

  /** Appending the message for one more entry keeps every earlier message
      in its slot and puts the new one at the end. */
  lemma NamesFailuresSnoc(entries: seq<string>, ok: string -> bool, before: seq<string>, errors: seq<string>)
    requires |entries| > 0
    requires NamesFailures(entries[..|entries| - 1], ok, before)
    requires |before| == |FailingPositions(entries[..|entries| - 1], ok)|
    requires errors == before + (if ok(entries[|entries| - 1]) then [] else [EntryErrorMessage(|entries|)])
    ensures NamesFailures(entries, ok, errors)
  {
    var n := |entries| - 1;
    var front := entries[..n];
    forall i | 0 <= i < |entries| && !ok(entries[i])
      ensures && |FailingPositions(entries[..i], ok)| < |errors|
              && errors[|FailingPositions(entries[..i], ok)|] == EntryErrorMessage(i + 1)
    {
      if i < n {
        assert entries[..i] == front[..i];
        assert entries[i] == front[i];
      } else {
        assert entries[..i] == front;
      }
    }
  }

  /** One message per invalid entry, in entry order, naming the entry's
      1-based position */
  function InvalidEntryErrors(entries: seq<string>): (errors: seq<string>)
    ensures |errors| == |InvalidPositions(entries)|
    ensures NamesFailures(entries, ValidatePlaylistUrl, errors)
    decreases |entries|
  {
    if |entries| == 0 then []
    else
      var n := |entries| - 1;
      var front := entries[..n];
      var before := InvalidEntryErrors(front);
      var here := if ValidatePlaylistUrl(entries[n]) then [] else [EntryErrorMessage(n + 1)];
      FailingPositionsSnoc(entries, ValidatePlaylistUrl);
      NamesFailuresSnoc(entries, ValidatePlaylistUrl, before, before + here);
      before + here
  }

  /** No invalid position means every entry validates. */
  lemma NoInvalidPositions(entries: seq<string>)
    ensures |InvalidPositions(entries)| == 0 <==> forall i :: 0 <= i < |entries| ==> ValidatePlaylistUrl(entries[i])
  {
    if i :| 0 <= i < |entries| && !ValidatePlaylistUrl(entries[i]) {
      assert (i as nat) in FailingPositions(entries, ValidatePlaylistUrl);
    }
  }

  /** The outcome of pressing submit: the validation messages shown, and the
      entries handed to the game, if any. */
  datatype Submission = Submission(errors: seq<string>, submitted: Option<seq<string>>)

  /** `handleSubmit` */
  function HandleSubmit(urls: seq<string>): (r: Submission)
    ensures var entries := NonBlankEntries(urls);
      && (r.submitted.Some? <==> r.errors == [])
      && (r.submitted.Some? ==> r.submitted.value == entries)
      && (r.errors == [] <==> |entries| > 0 && forall i :: 0 <= i < |entries| ==> ValidatePlaylistUrl(entries[i]))
      && |r.errors| == |InvalidPositions(entries)| + (if |entries| == 0 then 1 else 0)
    ensures NamesFailures(NonBlankEntries(urls), ValidatePlaylistUrl, r.errors)
    ensures |NonBlankEntries(urls)| == 0 ==> r.errors == [NoPlaylistMessage]
  {
    var entries := NonBlankEntries(urls);
    var errors := InvalidEntryErrors(entries) + (if |entries| == 0 then [NoPlaylistMessage] else []);
    NoInvalidPositions(entries);
    Submission(errors, if |errors| == 0 then Some(entries) else None)
  }

  /** Whatever the form submits is a non-empty list of locators that all
      resolve to a playlist id. */
  lemma SubmittedEntriesResolve(urls: seq<string>)
    requires HandleSubmit(urls).submitted.Some?
    ensures |HandleSubmit(urls).submitted.value| > 0
    ensures forall u :: u in HandleSubmit(urls).submitted.value ==> ExtractPlaylistId(u).Some?
  {
    var entries := HandleSubmit(urls).submitted.value;
    forall u | u in entries
      ensures ExtractPlaylistId(u).Some?
    {
      ValidateIffResolvable(u);
    }
  }
}
