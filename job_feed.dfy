/**
 * modules/job_feed.py: turning already-parsed RSS/Atom entries into feed items, the title
 * heuristic, tag stripping, the feed settings and the import loop of `poll_feeds`.
 * Downloading and XML parsing are the `fetch` parameter; the AI scorer, the store's failures
 * and the clock are parameters too.
 */
module JobFeed {
  import opened Wrappers
  import opened Config
  import opened Text
  import opened Values
  import opened Tables
  import opened Activity
  import opened Workflow

  // ---------------------------------------------------------------------------
  // _split_title_company
  // ---------------------------------------------------------------------------

  /** The separator class of the title pattern: '|', en dash, em dash and '-'. */
  const TitleSeps: set<char> := {'|', '\U{2013}', '\U{2014}', '-'}

  /** The first separator at index `from` or later that has a character after it. */
  function FindSep(raw: string, from: nat): (r: Option<nat>)
    ensures r.Some? ==> from <= r.value && r.value + 1 < |raw| && raw[r.value] in TitleSeps
    ensures r.Some? ==> forall k :: from <= k < r.value ==> raw[k] !in TitleSeps
    ensures r.None? ==> forall k :: from <= k && k + 1 < |raw| ==> raw[k] !in TitleSeps
    decreases |raw| - from
  {
    if from + 1 >= |raw| then None
    else if raw[from] in TitleSeps then Some(from)
    else FindSep(raw, from + 1)
  }

  /** No character of `s` is a title separator. */
  predicate NoTitleSep(s: string) {
    forall i :: 0 <= i < |s| ==> s[i] !in TitleSeps
  }

  /** Neither " at " nor " @ " occurs in `raw`, in any case. */
  predicate NoAtOrAmp(raw: string) {
    !Contains(Lower(raw), " at ") && !Contains(Lower(raw), " @ ")
  }

  /**
   * `_split_title_company`: (role, company). The first " at ", else the first " @ ", matched
   * case-insensitively, splits the title; otherwise the first separator after the first
   * character with something after it does; otherwise the whole title is the role.
   * The lazy `(.+?)\s*` of the pattern ends at that separator once stripped.
   */
  function SplitTitleCompany(raw: string): (r: (string, string))
    ensures IsStripped(r.0) && IsStripped(r.1)
    ensures |r.0| + |r.1| <= |raw|
  {
    var low := Lower(raw);
    var at := IndexOf(low, " at ");
    if at.Some? then (Strip(raw[..at.value]), Strip(raw[at.value + 4..]))
    else
      var amp := IndexOf(low, " @ ");
      if amp.Some? then (Strip(raw[..amp.value]), Strip(raw[amp.value + 3..]))
      else SplitAtSep(raw)
  }

  /** The third alternative of the title pattern: split at the first separator, or keep the whole title. */
  function SplitAtSep(raw: string): (r: (string, string))
    ensures IsStripped(r.0) && IsStripped(r.1)
    ensures |r.0| + |r.1| <= |raw|
  {
    var k := FindSep(raw, 1);
    if k.Some? then (Strip(raw[..k.value]), Strip(raw[k.value + 1..]))
    else (Strip(raw), "")
  }

  lemma LowerConcat(a: string, b: string)
    ensures Lower(a + b) == Lower(a) + Lower(b)
  {
    var x := Lower(a) + Lower(b);
    var y := Lower(a + b);
    forall i | 0 <= i < |x|
      ensures y[i] == x[i]
    {
      if i < |a| {
        assert (a + b)[i] == a[i];
        assert x[i] == Lower(a)[i];
      } else {
        assert (a + b)[i] == b[i - |a|];
        assert x[i] == Lower(b)[i - |a|];
      }
    }
    assert |y| == |x|;
  }

  lemma LowerAt(role: string, company: string, sep: string)
    requires sep == " at "
    ensures Lower(role + sep + company) == Lower(role) + sep + Lower(company)
  {
    LowerConcat(role + sep, company);
    LowerConcat(role, sep);
    assert Lower(sep) == sep by {
      assert Lower(sep)[0] == ' ' && Lower(sep)[1] == 'a' && Lower(sep)[2] == 't' && Lower(sep)[3] == ' ';
    }
  }

  /** The first " at " decides the split. */
  lemma SplitAtIndex(raw: string, n: nat)
    requires IndexOf(Lower(raw), " at ") == Some(n)
    ensures SplitTitleCompany(raw) == (Strip(raw[..n]), Strip(raw[n + 4..]))
  {
    assert IndexOf(Lower(raw), " at ").value == n;
  }

  /** Without " at ", the first " @ " decides the split. */
  lemma SplitAmpIndex(raw: string, n: nat)
    requires IndexOf(Lower(raw), " at ").None? && IndexOf(Lower(raw), " @ ") == Some(n)
    ensures SplitTitleCompany(raw) == (Strip(raw[..n]), Strip(raw[n + 3..]))
  {
    assert IndexOf(Lower(raw), " @ ").value == n;
  }

  /** An occurrence at n is the first one when the text up to its last-but-one character has none. */
  lemma FirstOccurrence(low: string, pat: string, n: nat, pre: string)
    requires |pat| >= 1 && n + |pat| <= |low| && low[..n + |pat| - 1] == pre
    requires OccursAt(low, pat, n) && !Contains(pre, pat)
    ensures IndexOf(low, pat) == Some(n)
  {
    forall k | 0 <= k < n
      ensures !OccursAt(low, pat, k)
    {
      if OccursAt(low, pat, k) {
        assert low[k..k + |pat|] == pre[k..k + |pat|];
        assert OccursAt(pre, pat, k);
      }
    }
  }

  lemma LowerAtSlices(role: string, company: string, sep: string, sepHead: string)
    requires sep == " at " && sepHead == " at"
    ensures var low := Lower(role + sep + company);
            |low| == |role| + 4 + |company| && low[|role|..|role| + 4] == sep && low[..|role| + 3] == Lower(role) + sepHead
  {
    LowerAt(role, company, sep);
    var low := Lower(role) + sep + Lower(company);
    assert low[..|role| + 3] == Lower(role) + sepHead;
  }

  /** "role at company" splits back into its two halves when the role itself holds no " at ". */
  lemma SplitAtRoundTrip(role: string, company: string)
    requires role != [] && company != [] && IsStripped(role) && IsStripped(company)
    requires !Contains(Lower(role) + " at", " at ")
    ensures SplitTitleCompany(role + " at " + company) == (role, company)
  {
    SplitAtRoundTripWith(role, company, " at ", " at");
  }

  lemma SplitAtRoundTripWith(role: string, company: string, sep: string, sepHead: string)
    requires sep == " at " && sepHead == " at"
    requires role != [] && company != [] && IsStripped(role) && IsStripped(company)
    requires !Contains(Lower(role) + sepHead, sep)
    ensures SplitTitleCompany(role + sep + company) == (role, company)
  {
    var raw := role + sep + company;
    AtIsFirst(role, company, sep, sepHead);
    SplitAtIndex(raw, |role|);
    SliceHalves(role, company, sep);
    StripOfStripped(role);
    StripOfStripped(company);
  }

  lemma AtIsFirst(role: string, company: string, sep: string, sepHead: string)
    requires sep == " at " && sepHead == " at"
    requires !Contains(Lower(role) + sepHead, sep)
    ensures IndexOf(Lower(role + sep + company), " at ") == Some(|role|)
  {
    var low := Lower(role + sep + company);
    LowerAtSlices(role, company, sep, sepHead);
    FirstOccurrence(low, sep, |role|, Lower(role) + sepHead);
  }

  /** The two halves around a four-character separator. */
  lemma SliceHalves(role: string, company: string, sep: string)
    requires |sep| == 4
    ensures (role + sep + company)[..|role|] == role
    ensures (role + sep + company)[|role| + 4..] == company
  {
  }

  /** "role | company" splits back into its halves when no " at " or " @ " occurs and the role has no separator. */
  lemma SplitPipeRoundTrip(role: string, company: string)
    requires role != [] && company != [] && IsStripped(role) && IsStripped(company)
    requires NoTitleSep(role)
    requires NoAtOrAmp(role + " | " + company)
    ensures SplitTitleCompany(role + " | " + company) == (role, company)
  {
    SplitPipeRoundTripWith(role, company, " | ");
  }

  lemma SplitPipeRoundTripWith(role: string, company: string, sep: string)
    requires sep == " | "
    requires role != [] && company != [] && IsStripped(role) && IsStripped(company)
    requires NoTitleSep(role)
    requires NoAtOrAmp(role + sep + company)
    ensures SplitTitleCompany(role + sep + company) == (role, company)
  {
    var raw := role + sep + company;
    PipeIsFirstSep(role, company, sep);
    SplitSepIndex(raw, |role| + 1);
    PipeHalves(role, company, sep);
  }

  /** With no " at " and no " @ ", the first separator decides the split. */
  lemma SplitSepIndex(raw: string, k: nat)
    requires NoAtOrAmp(raw)
    requires FindSep(raw, 1) == Some(k)
    ensures SplitTitleCompany(raw) == (Strip(raw[..k]), Strip(raw[k + 1..]))
  {
    NoAtNoAmp(raw);
    assert SplitTitleCompany(raw) == SplitAtSep(raw);
    SplitAtSepIndex(raw, k);
  }

  lemma SplitAtSepIndex(raw: string, k: nat)
    requires FindSep(raw, 1) == Some(k)
    ensures SplitAtSep(raw) == (Strip(raw[..k]), Strip(raw[k + 1..]))
  {
    assert FindSep(raw, 1).value == k;
  }

  /** Without " at " and " @ " neither search finds anything. */
  lemma NoAtNoAmp(raw: string)
    requires NoAtOrAmp(raw)
    ensures IndexOf(Lower(raw), " at ").None? && IndexOf(Lower(raw), " @ ").None?
  {
  }

  lemma PipeIsFirstSep(role: string, company: string, sep: string)
    requires sep == " | " && role != []
    requires NoTitleSep(role)
    ensures FindSep(role + sep + company, 1) == Some(|role| + 1)
  {
    var raw := role + sep + company;
    var n := |role|;
    assert raw[n] == ' ' && raw[n + 1] == '|' && n + 2 < |raw|;
    assert forall i :: 1 <= i < n + 1 ==> raw[i] !in TitleSeps by {
      forall i | 1 <= i < n + 1
        ensures raw[i] !in TitleSeps
      {
        if i < n {
          assert raw[i] == role[i];
        }
      }
    }
    var k := FindSep(raw, 1);
    assert k.Some? && k.value == n + 1;
  }

  lemma PipeHalves(role: string, company: string, sep: string)
    requires sep == " | " && IsStripped(role) && IsStripped(company)
    ensures Strip((role + sep + company)[..|role| + 1]) == role
    ensures Strip((role + sep + company)[|role| + 2..]) == company
  {
    assert (role + sep + company)[..|role| + 1] == "" + role + " ";
    assert (role + sep + company)[|role| + 2..] == " " + company + "";
    StripFrame("", role, " ");
    StripFrame(" ", company, "");
  }

  /** A title with no " at ", no " @ " and no separator is all role. */
  lemma SplitPlainTitle(raw: string)
    requires NoAtOrAmp(raw)
    requires NoTitleSep(raw)
    ensures SplitTitleCompany(raw) == (Strip(raw), "")
  {
    NoAtNoAmp(raw);
    NoSepFound(raw);
    assert SplitTitleCompany(raw) == SplitAtSep(raw);
  }

  lemma NoSepFound(raw: string)
    requires NoTitleSep(raw)
    ensures FindSep(raw, 1).None?
  {
  }

  // ---------------------------------------------------------------------------
  // _strip_html
  // ---------------------------------------------------------------------------

  /** The first index of character c. */
  function FindChar(s: string, c: char): (r: Option<nat>)
    ensures r.Some? ==> r.value < |s| && s[r.value] == c && forall k :: 0 <= k < r.value ==> s[k] != c
    ensures r.None? <==> c !in s
  {
    if s == [] then None
    else if s[0] == c then Some(0)
    else
      var r := FindChar(s[1..], c);
      assert c in s <==> c in s[1..];
      if r.Some? then Some(r.value + 1) else None
  }

  /** A match of `<[^>]+>` starts at i. */
  predicate TagAt(t: string, i: int) {
    0 <= i && i + 1 < |t| && t[i] == '<' && t[i + 1] != '>' && '>' in t[i + 2..]
  }

  predicate TagFree(t: string) {
    forall i :: 0 <= i < |t| ==> !TagAt(t, i)
  }

  /** `re.sub(r"<[^>]+>", " ", s)`: each leftmost tag, up to the first '>' after it, becomes one space. */
  function ReplaceTags(s: string): string
    decreases |s|
  {
    if s == [] then []
    else if TagAt(s, 0) then
      var m := FindChar(s[2..], '>').value + 2;
      " " + ReplaceTags(s[m + 1..])
    else [s[0]] + ReplaceTags(s[1..])
  }

  /** `_strip_html`: the text with its tags replaced by spaces, stripped. */
  function StripHtml(text: string): (r: string)
    ensures IsStripped(r)
  {
    Strip(ReplaceTags(text))
  }

  /** Replacing tags introduces no '>'. */
  lemma {:induction false} ReplaceTagsGt(s: string)
    ensures '>' in ReplaceTags(s) ==> '>' in s
    decreases |s|
  {
    if s != [] {
      if TagAt(s, 0) {
        var m := FindChar(s[2..], '>').value + 2;
        ReplaceTagsGt(s[m + 1..]);
        assert '>' in s[m + 1..] ==> '>' in s;
      } else {
        ReplaceTagsGt(s[1..]);
        assert '>' in s[1..] ==> '>' in s;
      }
    }
  }

  lemma TagFreeCons(c: char, x: string)
    requires TagFree(x) && !TagAt([c] + x, 0)
    ensures TagFree([c] + x)
  {
    var t := [c] + x;
    forall i | 0 < i < |t|
      ensures !TagAt(t, i)
    {
      if i + 1 < |t| {
        assert t[i + 2..] == x[i + 1..];
        assert t[i] == x[i - 1] && t[i + 1] == x[i];
        assert !TagAt(x, i - 1);
      }
    }
  }

  /** No tag is left after the substitution. */
  lemma {:induction false} ReplaceTagsFree(s: string)
    ensures TagFree(ReplaceTags(s))
    decreases |s|
  {
    if s != [] {
      if TagAt(s, 0) {
        var m := FindChar(s[2..], '>').value + 2;
        ReplaceTagsFree(s[m + 1..]);
        TagFreeCons(' ', ReplaceTags(s[m + 1..]));
      } else {
        var rest := ReplaceTags(s[1..]);
        ReplaceTagsFree(s[1..]);
        assert ReplaceTags(s) == [s[0]] + rest;
        if s[0] == '<' && |s| >= 2 {
          if s[1] == '>' {
            assert !TagAt(s[1..], 0);
            assert rest[0] == '>';
          } else {
            assert '>' !in s[2..];
            if |s| >= 3 {
              assert s[1..][2..] == s[3..];
              assert s[3..] == s[2..][1..];
              assert '>' !in s[3..];
            }
            assert !TagAt(s[1..], 0);
            assert s[1..][1..] == s[2..];
            assert rest == [s[1]] + ReplaceTags(s[2..]);
            ReplaceTagsGt(s[2..]);
            assert rest[1..] == ReplaceTags(s[2..]);
            assert ([s[0]] + rest)[2..] == rest[1..];
          }
        } else if s[0] == '<' {
          assert s[1..] == [];
        }
        TagFreeCons(s[0], rest);
      }
    }
  }

  /** A tag-free text is left as it is. */
  lemma {:induction false} TagFreeUnchanged(s: string)
    requires TagFree(s)
    ensures ReplaceTags(s) == s
  {
    if s != [] {
      assert !TagAt(s, 0);
      forall i | 0 <= i < |s[1..]|
        ensures !TagAt(s[1..], i)
      {
        assert !TagAt(s, i + 1);
        if i + 1 < |s[1..]| {
          assert s[1..][i + 2..] == s[i + 3..];
        }
      }
      TagFreeUnchanged(s[1..]);
      assert [s[0]] + s[1..] == s;
    }
  }

  lemma TagFreeSlice(t: string, a: nat, b: nat)
    requires a <= b <= |t| && TagFree(t)
    ensures TagFree(t[a..b])
  {
    forall i | 0 <= i < b - a
      ensures !TagAt(t[a..b], i)
    {
      assert !TagAt(t, a + i);
      TagAtSlice(t, a, b, i);
    }
  }

  /** A tag inside a slice is a tag of the whole text. */
  lemma TagAtSlice(t: string, a: nat, b: nat, i: nat)
    requires a <= b <= |t|
    ensures TagAt(t[a..b], i) ==> TagAt(t, a + i)
  {
    var u := t[a..b];
    if TagAt(u, i) {
      var j :| 0 <= j < |u[i + 2..]| && u[i + 2..][j] == '>';
      assert t[a + i + 2..][j] == '>';
    }
  }

  /** Stripping tags twice is stripping them once. */
  lemma StripHtmlIdempotent(s: string)
    ensures StripHtml(StripHtml(s)) == StripHtml(s)
  {
    StripHtmlTagFree(s);
    StripHtmlOfClean(StripHtml(s));
  }

  /** The result of `_strip_html` holds no tag. */
  lemma StripHtmlTagFree(s: string)
    ensures TagFree(StripHtml(s))
  {
    ReplaceTagsFree(s);
    TagFreeStrip(ReplaceTags(s));
  }

  /** Stripping keeps a text tag-free. */
  lemma TagFreeStrip(x: string)
    requires TagFree(x)
    ensures TagFree(Strip(x))
  {
    var a := StripIsSlice(x);
    TagFreeOfSlice(x, Strip(x), a);
  }

  lemma TagFreeOfSlice(x: string, r: string, a: nat)
    requires TagFree(x) && a + |r| <= |x| && r == x[a..a + |r|]
    ensures TagFree(r)
  {
    TagFreeSlice(x, a, a + |r|);
  }

  /** Stripped, tag-free text is its own `_strip_html`. */
  lemma StripHtmlOfClean(r: string)
    requires TagFree(r) && IsStripped(r)
    ensures StripHtml(r) == r
  {
    TagFreeUnchanged(r);
    StripOfStripped(r);
  }

  /** Text without '<' only loses its surrounding whitespace. */
  lemma StripHtmlPlain(s: string)
    requires '<' !in s
    ensures StripHtml(s) == Strip(s)
  {
    assert TagFree(s) by {
      forall i | 0 <= i < |s|
        ensures !TagAt(s, i)
      {
        assert s[i] in s;
      }
    }
    TagFreeUnchanged(s);
  }

  /** The `jd_raw` of an imported item: the description without tags, or the title when that is empty. */
  function JdRaw(description: string, title: string): string {
    var text := StripHtml(description);
    if text != [] then text else title
  }

  /** A plain description, already stripped as feed items are, is the `jd_raw` itself. */
  lemma JdRawPlain(description: string, title: string)
    requires description != [] && IsStripped(description) && '<' !in description
    ensures JdRaw(description, title) == description
  {
    StripHtmlPlain(description);
    StripOfStripped(description);
  }

  // ---------------------------------------------------------------------------
  // _fetch_feed over parsed documents
  // ---------------------------------------------------------------------------

  /** One parsed RSS item or Atom entry: the title, link (href) and description (summary) text, if present. */
  datatype RawEntry = RawEntry(title: Option<string>, link: Option<string>, description: Option<string>)

  /** A parsed feed: the RSS items anywhere below the root, then the root's Atom entries. */
  datatype FeedDoc = FeedDoc(rssItems: seq<RawEntry>, atomEntries: seq<RawEntry>)

  datatype FeedItem = FeedItem(title: string, link: string, description: string)

  /** The item an entry gives: its stripped fields, or nothing when the stripped link is empty. */
  function ItemOf(e: RawEntry): Option<FeedItem> {
    var link := Strip(e.link.GetOr(""));
    if link == [] then None
    else Some(FeedItem(Strip(e.title.GetOr("")), link, Strip(e.description.GetOr(""))))
  }

  predicate CleanItem(it: FeedItem) {
    it.link != [] && IsStripped(it.link) && IsStripped(it.title) && IsStripped(it.description)
  }

  /** The present items of a run of optional items, in order. */
  function Somes(xs: seq<Option<FeedItem>>): (r: seq<FeedItem>)
    ensures |r| <= |xs|
  {
    if xs == [] then []
    else
      var n := |xs| - 1;
      Somes(xs[..n]) + (if xs[n].Some? then [xs[n].value] else [])
  }

  /** Only present items are kept: all of them clean when every present one is. */
  lemma {:induction false} SomesClean(xs: seq<Option<FeedItem>>)
    requires forall k :: 0 <= k < |xs| && xs[k].Some? ==> CleanItem(xs[k].value)
    ensures forall k :: 0 <= k < |Somes(xs)| ==> CleanItem(Somes(xs)[k])
  {
    if xs != [] {
      var n := |xs| - 1;
      assert forall k :: 0 <= k < n ==> xs[..n][k] == xs[k];
      SomesClean(xs[..n]);
    }
  }

  lemma SomesSnoc(xs: seq<Option<FeedItem>>, k: nat)
    requires k < |xs|
    ensures Somes(xs[..k + 1]) == Somes(xs[..k]) + (if xs[k].Some? then [xs[k].value] else [])
  {
    assert xs[..k + 1][..k] == xs[..k];
  }

  /** Every present value is kept. */
  lemma {:induction false} SomesComplete(xs: seq<Option<FeedItem>>, i: nat)
    requires i < |xs| && xs[i].Some?
    ensures xs[i].value in Somes(xs)
  {
    var n := |xs| - 1;
    if i < n {
      assert xs[..n][i] == xs[i];
      SomesComplete(xs[..n], i);
    }
  }

  /** The item each entry gives, entry by entry. */
  function EntryItems(es: seq<RawEntry>): (r: seq<Option<FeedItem>>)
    ensures |r| == |es| && forall k :: 0 <= k < |es| ==> r[k] == ItemOf(es[k])
  {
    seq(|es|, k requires 0 <= k < |es| => ItemOf(es[k]))
  }

  /** The items of a run of entries, in document order. */
  function Collected(es: seq<RawEntry>): (r: seq<FeedItem>)
    ensures |r| <= |es|
    ensures forall k :: 0 <= k < |r| ==> CleanItem(r[k])
  {
    SomesClean(EntryItems(es));
    Somes(EntryItems(es))
  }

  /** Every entry with a non-blank link has its item among the collected ones. */
  lemma CollectedComplete(es: seq<RawEntry>, i: nat)
    requires i < |es| && Strip(es[i].link.GetOr("")) != []
    ensures ItemOf(es[i]).Some? && ItemOf(es[i]).value in Collected(es)
  {
    SomesComplete(EntryItems(es), i);
  }

  /** Entries with a blank link give no item. */
  lemma BlankLinkDropped(e: RawEntry)
    requires Strip(e.link.GetOr("")) == []
    ensures ItemOf(e).None?
  {
  }

  /** What `_fetch_feed` returns for a document, or for a download or parse failure (None). */
  function FeedItems(doc: Option<FeedDoc>): (r: seq<FeedItem>)
    ensures forall k :: 0 <= k < |r| ==> CleanItem(r[k])
  {
    if doc.None? then [] else Collected(doc.value.rssItems) + Collected(doc.value.atomEntries)
  }

  /** `_fetch_feed`: the entries of the fetched document that have a link, RSS items first. */
  method FetchFeed(url: string, fetch: string -> Option<FeedDoc>) returns (items: seq<FeedItem>)
    ensures items == FeedItems(fetch(Strip(url)))
    ensures fetch(Strip(url)).None? ==> items == []
  {
    var doc := fetch(Strip(url));
    if doc.None? {
      return [];
    }
    items := CollectEntries([], EntryItems(doc.value.rssItems));
    assert items == Collected(doc.value.rssItems);
    items := CollectEntries(items, EntryItems(doc.value.atomEntries));
    assert items == FeedItems(doc);
  }

  /** One of `_fetch_feed`'s loops over the parsed entries: each entry with a link appended in order. */
  method CollectEntries(found: seq<FeedItem>, opts: seq<Option<FeedItem>>) returns (items: seq<FeedItem>)
    ensures items == found + Somes(opts)
  {
    items := found;
    var k := 0;
    while k < |opts|
      invariant 0 <= k <= |opts|
      invariant items == found + Somes(opts[..k])
    {
      var it := opts[k];
      SomesSnoc(opts, k);
      if it.Some? {
        assert (found + Somes(opts[..k])) + [it.value] == found + (Somes(opts[..k]) + [it.value]);
        items := items + [it.value];
      } else {
        assert Somes(opts[..k]) + [] == Somes(opts[..k]);
      }
      k := k + 1;
    }
    assert opts[..k] == opts;
  }

  // ---------------------------------------------------------------------------
  // load_feed_config
  // ---------------------------------------------------------------------------

  datatype FeedConfig = FeedConfig(urls: seq<string>, keywords: seq<string>, autoScore: bool, minScore: int)

  const DefaultFeedConfig: FeedConfig := FeedConfig([], [], false, 0)

  /** `int(v)`, with 0 for a value that raises TypeError or ValueError. */
  function MinScoreOf(v: Value): int {
    match v
    case Int(i) => i
    case Bool(b) => if b then 1 else 0
    case Str(t) => ParseInt(t).GetOr(0)
    case _ => 0
  }

  /**
   * `load_feed_config` on the parsed settings file (None: missing or unreadable). A file that is not
   * an object, or whose URL or keyword setting is not text, falls back to the defaults.
   */
  function LoadFeedConfig(settings: Option<Value>): (r: FeedConfig)
    ensures forall k :: 0 <= k < |r.urls| ==>
              r.urls[k] != [] && IsStripped(r.urls[k]) && Avoids(r.urls[k], LineBreaks)
    ensures forall k :: 0 <= k < |r.keywords| ==>
              r.keywords[k] != [] && IsStripped(r.keywords[k]) && Avoids(r.keywords[k], {','})
    ensures settings.None? || !settings.value.Obj? ==> r == DefaultFeedConfig
  {
    if settings.None? || !settings.value.Obj? then DefaultFeedConfig
    else
      var s := settings.value.fields;
      var u := Get(s, "feed_urls", Str(""));
      var k := Get(s, "feed_keywords", Str(""));
      if !u.Str? || !k.Str? then DefaultFeedConfig
      else
        FeedConfig(CleanSplit(u.s, LineBreaks), CleanSplit(k.s, {','}),
                   Truthy(Get(s, "feed_auto_score", Bool(false))), MinScoreOf(Get(s, "feed_min_score", Int(0))))
  }

  /** A settings file holding only the URL setting yields its cleaned lines. */
  lemma LoadUrlsOnly(text: string)
    ensures LoadFeedConfig(Some(Obj(map["feed_urls" := Str(text)]))).urls == CleanSplit(text, LineBreaks)
  {
    var m := map["feed_urls" := Str(text)];
    assert "feed_keywords" !in m by {
      assert "feed_keywords"[5] != "feed_urls"[5];
    }
  }

  /** A settings file holding only the keyword setting yields its cleaned comma-separated parts. */
  lemma LoadKeywordsOnly(text: string)
    ensures LoadFeedConfig(Some(Obj(map["feed_keywords" := Str(text)]))).keywords == CleanSplit(text, {','})
  {
    var m := map["feed_keywords" := Str(text)];
    assert "feed_urls" !in m by {
      assert "feed_keywords"[5] != "feed_urls"[5];
    }
  }

  /** A URL list written one per line is read back as written. */
  lemma FeedUrlsRoundTrip(urls: seq<string>)
    requires |urls| >= 1
    requires forall k :: 0 <= k < |urls| ==> urls[k] != [] && IsStripped(urls[k])
    requires forall k :: 0 <= k < |urls| ==> Avoids(urls[k], LineBreaks)
    ensures LoadFeedConfig(Some(Obj(map["feed_urls" := Str(Join(urls, "\n"))]))).urls == urls
  {
    LoadUrlsOnly(Join(urls, "\n"));
    assert "\n" == [10 as char];
    SplitJoin(urls, 10 as char, LineBreaks);
    StrippedNonBlankKeeps(urls);
  }

  /** A keyword list written comma-separated is read back as written. */
  lemma FeedKeywordsRoundTrip(keywords: seq<string>)
    requires |keywords| >= 1
    requires forall k :: 0 <= k < |keywords| ==> keywords[k] != [] && IsStripped(keywords[k])
    requires forall k :: 0 <= k < |keywords| ==> Avoids(keywords[k], {','})
    ensures LoadFeedConfig(Some(Obj(map["feed_keywords" := Str(Join(keywords, ","))]))).keywords == keywords
  {
    LoadKeywordsOnly(Join(keywords, ","));
    SplitJoin(keywords, ',', {','});
    StrippedNonBlankKeeps(keywords);
  }

  /** A minimum score written as decimal text is read as that number. */
  lemma FeedMinScoreText(n: int)
    ensures LoadFeedConfig(Some(Obj(map["feed_min_score" := Str(ShowInt(n))]))).minScore == n
  {
    ParseShowInt(n);
  }

  // ---------------------------------------------------------------------------
  // poll_feeds
  // ---------------------------------------------------------------------------

  /** `[k.strip().lower() for k in keyword_filter or [] if k.strip()]`. */
  function Keywords(filter: Option<seq<string>>): (r: seq<string>)
    ensures |r| == |StrippedNonBlank(filter.GetOr([]))|
    ensures forall k :: 0 <= k < |r| ==> r[k] != [] && r[k] == Lower(StrippedNonBlank(filter.GetOr([]))[k])
  {
    LowerAll(StrippedNonBlank(filter.GetOr([])))
  }

  function LowerAll(xs: seq<string>): (r: seq<string>)
    ensures |r| == |xs|
    ensures forall k :: 0 <= k < |xs| ==> r[k] == Lower(xs[k])
  {
    if xs == [] then [] else [Lower(xs[0])] + LowerAll(xs[1..])
  }

  /** The keyword filter rejects the title: there are keywords and the lowercased title contains none. */
  predicate KeywordMiss(kws: seq<string>, title: string) {
    kws != [] && forall k :: 0 <= k < |kws| ==> !Contains(Lower(title), kws[k])
  }

  /** `_url_exists`: some stored opportunity has this `jd_url`. */
  predicate LinkStored(opps: seq<Opportunity>, link: string) {
    exists i :: 0 <= i < |opps| && opps[i].jdUrl == Some(link)
  }

  /**
   * What stays fixed during one poll: the keywords, whether to score, the threshold, the résumé,
   * the scorer (None: it raised), which links the store fails to create, the Prospect action and today.
   */
  datatype ImportContext = ImportContext(
    kws: seq<string>,
    shouldScore: bool,
    minScore: int,
    resumeText: string,
    scorer: (string, string) -> Option<Value>,
    createOk: string -> bool,
    action: NextAction,
    today: int)

  /** The integer `fit_score` of a scoring result (0 when absent); None when scoring raised or gave no integer. */
  function FitOf(result: Option<Value>): Option<int> {
    if result.Some? && result.value.Obj? && Get(result.value.fields, "fit_score", Int(0)).Int? then
      Some(Get(result.value.fields, "fit_score", Int(0)).i)
    else None
  }

  /** The fit score an item gets on import, when scoring is on and succeeds. */
  function ScoredFit(ctx: ImportContext, item: FeedItem): Option<int> {
    if ctx.shouldScore then FitOf(ctx.scorer(ctx.resumeText, JdRaw(item.description, item.title))) else None
  }

  /** The opportunity an imported item creates. */
  function FeedOpportunity(codec: JsonCodec, item: FeedItem, action: NextAction, today: int): (o: Opportunity)
    ensures o.stage == Initial && o.source == Some("Other") && o.jdUrl == Some(item.link)
    ensures o.company != [] && OppInvariant(o)
    ensures o.jdRaw == Some(JdRaw(item.description, item.title))
    ensures o.nextActionDate == Some(today + action.days)
  {
    var (role, company) := SplitTitleCompany(item.title);
    Opportunity(
      0, if company == "" then "Unknown" else company, if role == "" then item.title else role,
      None, None, Initial, Some("Other"), None, Some(item.link), Some(JdRaw(item.description, item.title)),
      Some(codec.dumps(Arr([]))), None, None, Some(action.text), Some(today + action.days),
      None, None, None, today, today)
  }

  /** The `new` entry of an added item: company (or "?"), an em dash, role (or the title). */
  function NewTitle(item: FeedItem): string {
    var (role, company) := SplitTitleCompany(item.title);
    (if company == "" then "?" else company) + " \U{2014} " + (if role == "" then item.title else role)
  }

  /** How one item ends, and so which one counter it increments. */
  datatype Fate = Skipped | Errored | Filtered | Added(newTitle: string)

  function ItemFate(ctx: ImportContext, opps: seq<Opportunity>, item: FeedItem): (f: Fate)
    ensures f.Skipped? <==> KeywordMiss(ctx.kws, item.title) || LinkStored(opps, item.link)
    ensures f.Filtered? ==> ctx.shouldScore && ctx.minScore > 0
    ensures f.Added? ==> f.newTitle == NewTitle(item)
  {
    if KeywordMiss(ctx.kws, item.title) || LinkStored(opps, item.link) then Skipped
    else if !ctx.createOk(item.link) then Errored
    else
      var fit := ScoredFit(ctx, item);
      if fit.Some? && ctx.minScore > 0 && fit.value < ctx.minScore then Filtered else Added(NewTitle(item))
  }

  /** The Note Added entry of a created item. */
  function NoteEntry(title: string, id: int): Entry {
    Entry(NoteAdded, Some("Auto-added from job feed: " + title), Some(id), None, None)
  }

  /** The AI Action entry of a scored item that is kept. */
  function ScoreEntry(fit: int, id: int): Entry {
    Entry(AiAction, Some("Auto-scored on feed import: " + ShowInt(fit) + "/10"), Some(id), None, None)
  }

  /** The log entries one item writes: the Note Added entry once created, and the AI Action entry once scored and kept. */
  function FateEntries(ctx: ImportContext, item: FeedItem, f: Fate, id: int): (r: seq<Entry>)
    ensures f.Skipped? || f.Errored? <==> r == []
    ensures r != [] ==> r[0] == NoteEntry(item.title, id)
    ensures f.Filtered? ==> r == [NoteEntry(item.title, id)]
    ensures f.Added? ==> |r| == (if ScoredFit(ctx, item).Some? then 2 else 1)
  {
    var fit := ScoredFit(ctx, item);
    match f
    case Skipped => []
    case Errored => []
    case Filtered => [NoteEntry(item.title, id)]
    case Added(_) => [NoteEntry(item.title, id)] + (if fit.Some? then [ScoreEntry(fit.value, id)] else [])
  }

  /** What the scorer returns for an item's description (None: it raised). */
  function ScoreResult(ctx: ImportContext, item: FeedItem): Option<Value> {
    ctx.scorer(ctx.resumeText, JdRaw(item.description, item.title))
  }

  /** A row with its fit score and the JSON of the scoring result stored, when there is a score. */
  function Scored(codec: JsonCodec, o: Opportunity, fit: Option<int>, result: Option<Value>): (r: Opportunity)
    ensures fit.None? ==> r == o
    ensures fit.Some? ==> r.fitScore == fit
    ensures r.id == o.id && r.stage == o.stage && r.jdUrl == o.jdUrl && r.source == o.source
  {
    if fit.Some? then o.(fitScore := Some(fit.value), aiFitSummary := Some(codec.dumps(result.GetOr(Null)))) else o
  }

  /** The row an added item leaves: the feed opportunity, with its fit score and summary once scored. */
  function AddedRow(codec: JsonCodec, ctx: ImportContext, item: FeedItem, id: int): Opportunity {
    Scored(codec, FeedOpportunity(codec, item, ctx.action, ctx.today).(id := id), ScoredFit(ctx, item), ScoreResult(ctx, item))
  }

  /** Links of rows from index n0 on differ from the links of every earlier row. */
  predicate FreshLinks(opps: seq<Opportunity>, n0: nat) {
    forall i, j :: 0 <= i < j < |opps| && n0 <= j ==> opps[i].jdUrl != opps[j].jdUrl
  }

  /** Rows from index n0 on are Prospect rows created from feed items. */
  predicate FeedRows(opps: seq<Opportunity>, n0: nat) {
    forall j :: n0 <= j < |opps| ==> opps[j].stage == Initial && opps[j].source == Some("Other") && opps[j].jdUrl.Some?
  }

  /** One pass of the inner loop of `poll_feeds`. */
  method ImportItem(db: Store, ctx: ImportContext, item: FeedItem) returns (f: Fate)
    requires db.Valid()
    modifies db`opps, db`nextOppId, db`log, db`nextActivityId
    ensures db.Valid()
    ensures f == ItemFate(ctx, old(db.opps), item)
    ensures f.Added? ==> db.opps == old(db.opps) + [AddedRow(db.codec, ctx, item, old(db.nextOppId))]
    ensures !f.Added? ==> db.opps == old(db.opps)
    ensures |old(db.log)| <= |db.log| && db.log[..|old(db.log)|] == old(db.log)
    ensures Entries(db.log[|old(db.log)|..]) == FateEntries(ctx, item, f, old(db.nextOppId))
  {
    f := ItemFate(ctx, db.opps, item);
    if f.Skipped? || f.Errored? {
      assert db.log[|db.log|..] == [];
      return;
    }
    var o := FeedOpportunity(db.codec, item, ctx.action, ctx.today);
    if f.Filtered? {
      ImportFiltered(db, o, item.title, ctx.today);
    } else {
      ImportKept(db, o, item.title, ScoredFit(ctx, item), ScoreResult(ctx, item), ctx.today);
    }
  }

  /** A created item whose score is under the threshold: its row is deleted again, its Note Added entry stays. */
  method ImportFiltered(db: Store, o: Opportunity, title: string, today: int)
    requires db.Valid() && OppInvariant(o)
    modifies db`opps, db`nextOppId, db`log, db`nextActivityId
    ensures db.Valid()
    ensures db.opps == old(db.opps)
    ensures |old(db.log)| <= |db.log| && db.log[..|old(db.log)|] == old(db.log)
    ensures Entries(db.log[|old(db.log)|..]) == [NoteEntry(title, old(db.nextOppId))]
  {
    ghost var log0 := db.log;
    var id := CreateRow(db, o, title, today);
    DeleteOpportunity(db, |db.opps| - 1);
    assert db.opps == old(db.opps);
    NewEntries(log0, db.log[|log0|..]);
  }

  /** A created item that is kept: scored when there is a score. */
  method ImportKept(db: Store, o: Opportunity, title: string, fit: Option<int>, result: Option<Value>, today: int)
    requires db.Valid() && OppInvariant(o)
    modifies db`opps, db`nextOppId, db`log, db`nextActivityId
    ensures db.Valid()
    ensures db.opps == old(db.opps) + [Scored(db.codec, o.(id := old(db.nextOppId)), fit, result)]
    ensures |old(db.log)| <= |db.log| && db.log[..|old(db.log)|] == old(db.log)
    ensures Entries(db.log[|old(db.log)|..]) ==
              [NoteEntry(title, old(db.nextOppId))] + (if fit.Some? then [ScoreEntry(fit.value, old(db.nextOppId))] else [])
  {
    ghost var log0 := db.log;
    ghost var opps0 := db.opps;
    var id := CreateRow(db, o, title, today);
    ScoreLastRow(db, fit, result, id, today);
    assert (opps0 + [o.(id := id)])[..|opps0|] == opps0;
    NewEntries(log0, db.log[|log0|..]);
  }

  /** A run of rows appended after `log0` is what follows `log0`. */
  lemma NewEntries(log0: seq<ActivityRow>, rows: seq<ActivityRow>)
    ensures (log0 + rows)[..|log0|] == log0 && (log0 + rows)[|log0|..] == rows
  {
  }

  /** `create_opportunity` for a feed item, then its Note Added entry. */
  method CreateRow(db: Store, o: Opportunity, title: string, today: int) returns (id: int)
    requires db.Valid() && OppInvariant(o)
    modifies db`opps, db`nextOppId, db`log, db`nextActivityId
    ensures db.Valid()
    ensures id == old(db.nextOppId)
    ensures db.opps == old(db.opps) + [o.(id := id)]
    ensures db.log == old(db.log) + [ActivityRow(old(db.nextActivityId), NoteEntry(title, id), today)]
  {
    id := InsertOpportunity(db, o);
    var _ := LogActivity(db, NoteAdded, Some("Auto-added from job feed: " + title), Some(id), None, Null, today);
  }

  /** The scoring step for the item just created and kept: its score and summary stored, and logged. */
  method ScoreLastRow(db: Store, fit: Option<int>, result: Option<Value>, id: int, today: int)
    requires db.Valid() && |db.opps| >= 1
    modifies db`opps, db`log, db`nextActivityId
    ensures db.Valid()
    ensures var n := |old(db.opps)| - 1;
            db.opps == old(db.opps)[..n] + [Scored(db.codec, old(db.opps)[n], fit, result)]
    ensures db.log == old(db.log) + (if fit.Some? then [ActivityRow(old(db.nextActivityId), ScoreEntry(fit.value, id), today)] else [])
  {
    var k := |db.opps| - 1;
    if fit.Some? {
      UpdateOpportunity(db, k, Scored(db.codec, db.opps[k], fit, result));
      var _ := LogActivity(db, AiAction, Some("Auto-scored on feed import: " + ShowInt(fit.value) + "/10"), Some(id), None, Null, today);
    }
    assert db.opps == old(db.opps)[..k] + [db.opps[k]];
  }

  /** The counters and titles `poll_feeds` returns. */
  datatype PollResult = PollResult(added: nat, skipped: nat, filtered: nat, errors: nat, newTitles: seq<string>)

  function Processed(r: PollResult): nat {
    r.added + r.skipped + r.filtered + r.errors
  }

  /** The result after counting one more item. */
  function Count(r: PollResult, f: Fate): (r2: PollResult)
    ensures |r2.newTitles| - r2.added == |r.newTitles| - r.added
    ensures r2.added == r.added + (if f.Added? then 1 else 0)
  {
    match f
    case Skipped => r.(skipped := r.skipped + 1)
    case Errored => r.(errors := r.errors + 1)
    case Filtered => r.(filtered := r.filtered + 1)
    case Added(t) => r.(added := r.added + 1, newTitles := r.newTitles + [t])
  }

  /** Counting a fate adds one to its own counter and leaves the others as they were. */
  lemma CountOnce(r: PollResult, f: Fate)
    ensures Processed(Count(r, f)) == Processed(r) + 1
    ensures Count(r, f).skipped == r.skipped + (if f.Skipped? then 1 else 0)
    ensures Count(r, f).errors == r.errors + (if f.Errored? then 1 else 0)
    ensures Count(r, f).filtered == r.filtered + (if f.Filtered? then 1 else 0)
    ensures Count(r, f).newTitles == r.newTitles + (if f.Added? then [f.newTitle] else [])
  {
  }

  /** The titles of the added fates, in order. */
  function Titles(fates: seq<Fate>): seq<string> {
    if fates == [] then []
    else
      var f := fates[|fates| - 1];
      Titles(fates[..|fates| - 1]) + (if f.Added? then [f.newTitle] else [])
  }

  /** The result of counting a run of fates one by one from zero: one title per added fate. */
  function Tally(fates: seq<Fate>): (t: PollResult)
    ensures |t.newTitles| == t.added
  {
    if fates == [] then PollResult(0, 0, 0, 0, [])
    else Count(Tally(fates[..|fates| - 1]), fates[|fates| - 1])
  }

  /** Every fate of the run is counted exactly once. */
  lemma {:induction false} TallyProcessed(fates: seq<Fate>)
    ensures Processed(Tally(fates)) == |fates|
  {
    if fates != [] {
      TallyProcessed(fates[..|fates| - 1]);
    }
  }

  /** The tally's titles are those of the added fates, in order. */
  lemma {:induction false} TallyTitles(fates: seq<Fate>)
    ensures Tally(fates).newTitles == Titles(fates)
  {
    if fates != [] {
      TallyTitles(fates[..|fates| - 1]);
    }
  }

  /** Without a filtered fate, the tally has no filtered count. */
  lemma {:induction false} TallyUnfiltered(fates: seq<Fate>)
    requires forall k :: 0 <= k < |fates| ==> !fates[k].Filtered?
    ensures Tally(fates).filtered == 0
  {
    if fates != [] {
      var n := |fates| - 1;
      assert forall k :: 0 <= k < n ==> fates[..n][k] == fates[k];
      TallyUnfiltered(fates[..n]);
    }
  }

  /** Counting one more fate. */
  lemma TallySnoc(fates: seq<Fate>, f: Fate)
    ensures Tally(fates + [f]) == Count(Tally(fates), f)
  {
    assert (fates + [f])[..|fates|] == fates;
  }

  /** An item's fate is either its fate against a store without its link, or a skip for a link the store holds. */
  lemma FateOrDuplicate(ctx: ImportContext, opps: seq<Opportunity>, item: FeedItem)
    ensures var f := ItemFate(ctx, opps, item);
            f == ItemFate(ctx, [], item) || (f.Skipped? && LinkStored(opps, item.link))
  {
    assert !LinkStored([], item.link);
  }

  /**
   * `fates` are the fates of `items`, in order. Each is the fate the item has against a store that
   * does not hold its link, or a skip for a link that `opps` holds.
   */
  ghost predicate FatesFit(ctx: ImportContext, items: seq<FeedItem>, fates: seq<Fate>, opps: seq<Opportunity>) {
    && |fates| == |items|
    && forall k :: 0 <= k < |items| ==>
         fates[k] == ItemFate(ctx, [], items[k]) || (fates[k].Skipped? && LinkStored(opps, items[k].link))
  }

  /** What a fitting run of fates says of each item. */
  lemma FatesMeaning(ctx: ImportContext, items: seq<FeedItem>, fates: seq<Fate>, opps: seq<Opportunity>, k: nat)
    requires FatesFit(ctx, items, fates, opps) && k < |items|
    ensures KeywordMiss(ctx.kws, items[k].title) ==> fates[k].Skipped?
    ensures fates[k].Skipped? ==> KeywordMiss(ctx.kws, items[k].title) || LinkStored(opps, items[k].link)
    ensures fates[k].Errored? ==> !ctx.createOk(items[k].link)
    ensures fates[k].Filtered? ==>
              ctx.shouldScore && ctx.minScore > 0 && ScoredFit(ctx, items[k]).Some? &&
              ScoredFit(ctx, items[k]).value < ctx.minScore
    ensures fates[k].Added? ==> ctx.createOk(items[k].link) && fates[k].newTitle == NewTitle(items[k])
  {
  }

  /** Every log row from index n on is a Note Added entry. */
  ghost predicate OnlyNotes(log: seq<ActivityRow>, n: nat) {
    forall k :: n <= k < |log| ==> log[k].entry.kind == NoteAdded
  }

  /** Without scoring, an item logs Note Added entries only. */
  lemma NoScoreNotes(ctx: ImportContext, item: FeedItem, f: Fate, id: int)
    requires !ctx.shouldScore
    ensures forall e :: e in FateEntries(ctx, item, f, id) ==> e.kind == NoteAdded
  {
  }

  /** A log grown by rows that are all Note Added. */
  lemma OnlyNotesJoin(log: seq<ActivityRow>, log2: seq<ActivityRow>, n: nat)
    requires n <= |log| <= |log2| && log2[..|log|] == log
    requires OnlyNotes(log, n) && OnlyNotes(log2, |log|)
    ensures OnlyNotes(log2, n)
  {
    forall k | n <= k < |log|
      ensures log2[k].entry.kind == NoteAdded
    {
      assert log2[k] == log2[..|log|][k];
    }
  }

  /** The items whose fate is Added, in order. */
  function AddedItems(items: seq<FeedItem>, fates: seq<Fate>): (r: seq<FeedItem>)
    ensures |r| <= |items|
  {
    if items == [] || fates == [] then []
    else
      AddedItems(items[..|items| - 1], fates[..|fates| - 1]) +
      (if fates[|fates| - 1].Added? then [items[|items| - 1]] else [])
  }

  /** One more item's fate: it joins the added items exactly when it is Added. */
  lemma AddedSnoc(items: seq<FeedItem>, fates: seq<Fate>, item: FeedItem, f: Fate)
    requires |items| == |fates|
    ensures AddedItems(items + [item], fates + [f]) == AddedItems(items, fates) + (if f.Added? then [item] else [])
  {
    assert (items + [item])[..|items|] == items;
    assert (fates + [f])[..|fates|] == fates;
  }

  /** The rows from index n0 on are the rows of the `added` items, one each, in order. */
  predicate NewRows(codec: JsonCodec, ctx: ImportContext, opps: seq<Opportunity>, n0: nat, added: seq<FeedItem>) {
    && |opps| == n0 + |added|
    && forall j :: n0 <= j < |opps| ==> opps[j] == AddedRow(codec, ctx, added[j - n0], opps[j].id)
  }

  /** Appending an item's row keeps the new rows those of the added items. */
  lemma NewRowsSnoc(codec: JsonCodec, ctx: ImportContext, opps: seq<Opportunity>, n0: nat, added: seq<FeedItem>,
                    item: FeedItem, id: int)
    requires NewRows(codec, ctx, opps, n0, added)
    ensures NewRows(codec, ctx, opps + [AddedRow(codec, ctx, item, id)], n0, added + [item])
  {
    var t := opps + [AddedRow(codec, ctx, item, id)];
    forall j | n0 <= j < |t|
      ensures t[j] == AddedRow(codec, ctx, (added + [item])[j - n0], t[j].id)
    {
      if j < |opps| {
        assert t[j] == opps[j];
      }
    }
  }

  /** No two items the poll added share a link: a link created earlier in the same poll is skipped. */
  lemma AddedLinksDistinct(codec: JsonCodec, ctx: ImportContext, opps: seq<Opportunity>, n0: nat, added: seq<FeedItem>)
    requires NewRows(codec, ctx, opps, n0, added) && FreshLinks(opps, n0)
    ensures forall i, j :: 0 <= i < j < |added| ==> added[i].link != added[j].link
  {
    forall i, j | 0 <= i < j < |added|
      ensures added[i].link != added[j].link
    {
      AddedRowShape(codec, ctx, added[i], opps[n0 + i].id);
      AddedRowShape(codec, ctx, added[j], opps[n0 + j].id);
      assert opps[n0 + i].jdUrl != opps[n0 + j].jdUrl;
    }
  }

  /** The items added before index a are the first of those added before index b. */
  lemma {:induction false} AddedPrefix(items: seq<FeedItem>, fates: seq<Fate>, a: nat, b: nat)
    requires a <= b <= |items| && |items| == |fates|
    ensures |AddedItems(items[..a], fates[..a])| <= |AddedItems(items[..b], fates[..b])|
    ensures AddedItems(items[..b], fates[..b])[..|AddedItems(items[..a], fates[..a])|] == AddedItems(items[..a], fates[..a])
    decreases b - a
  {
    if a < b {
      AddedPrefix(items, fates, a, b - 1);
      assert items[..b][..b - 1] == items[..b - 1];
      assert fates[..b][..b - 1] == fates[..b - 1];
    }
  }

  /** An added item comes right after the items added before it. */
  lemma AddedAt(items: seq<FeedItem>, fates: seq<Fate>, i: nat)
    requires i < |items| == |fates| && fates[i].Added?
    ensures AddedItems(items[..i + 1], fates[..i + 1]) == AddedItems(items[..i], fates[..i]) + [items[i]]
  {
    assert items[..i + 1][..i] == items[..i];
    assert fates[..i + 1][..i] == fates[..i];
  }

  /**
   * Item k's fate is its `ItemFate` against the store as it stood before it: the rows from
   * before the poll plus the rows of the items added before k.
   */
  ghost predicate FateAt(ctx: ImportContext, seen: seq<FeedItem>, fates: seq<Fate>, opps: seq<Opportunity>, n0: nat, k: nat) {
    && k < |seen| && k < |fates|
    && n0 + |AddedItems(seen[..k], fates[..k])| <= |opps|
    && fates[k] == ItemFate(ctx, opps[..n0 + |AddedItems(seen[..k], fates[..k])|], seen[k])
  }

  /** Every item's fate is the one it has against the store before it. */
  ghost predicate FatesExact(ctx: ImportContext, seen: seq<FeedItem>, fates: seq<Fate>, opps: seq<Opportunity>, n0: nat) {
    |fates| == |seen| && forall k :: 0 <= k < |seen| ==> FateAt(ctx, seen, fates, opps, n0, k)
  }

  /** The next item's fate, taken against the store after the rows of the items added so far. */
  lemma FatesExactStep(ctx: ImportContext, seen: seq<FeedItem>, fates: seq<Fate>, opps1: seq<Opportunity>, n0: nat,
                       item: FeedItem, opps2: seq<Opportunity>)
    requires FatesExact(ctx, seen, fates, opps1, n0)
    requires |opps1| == n0 + |AddedItems(seen, fates)|
    requires |opps1| <= |opps2| && opps2[..|opps1|] == opps1
    ensures FatesExact(ctx, seen + [item], fates + [ItemFate(ctx, opps1, item)], opps2, n0)
  {
    var s2 := seen + [item];
    var f2 := fates + [ItemFate(ctx, opps1, item)];
    forall k | 0 <= k < |s2|
      ensures FateAt(ctx, s2, f2, opps2, n0, k)
    {
      assert s2[..k] == seen[..k] && f2[..k] == fates[..k];
      if k < |seen| {
        assert FateAt(ctx, seen, fates, opps1, n0, k);
        var m := n0 + |AddedItems(seen[..k], fates[..k])|;
        assert opps2[..m] == opps2[..|opps1|][..m];
      } else {
        assert seen[..k] == seen && fates[..k] == fates;
      }
    }
  }

  /** Exact fates fit: each is the fate against an empty store, or a skip for a link the store holds. */
  lemma ExactFits(ctx: ImportContext, seen: seq<FeedItem>, fates: seq<Fate>, opps: seq<Opportunity>, n0: nat)
    requires FatesExact(ctx, seen, fates, opps, n0)
    ensures FatesFit(ctx, seen, fates, opps)
  {
    forall k | 0 <= k < |seen|
      ensures fates[k] == ItemFate(ctx, [], seen[k]) || (fates[k].Skipped? && LinkStored(opps, seen[k].link))
    {
      assert FateAt(ctx, seen, fates, opps, n0, k);
      var m := n0 + |AddedItems(seen[..k], fates[..k])|;
      FateOrDuplicate(ctx, opps[..m], seen[k]);
      if fates[k] != ItemFate(ctx, [], seen[k]) {
        var i :| 0 <= i < m && opps[..m][i].jdUrl == Some(seen[k].link);
        assert opps[i] == opps[..m][i];
      }
    }
  }

  /** An item added before index k is among (and at a fixed place in) the items added before k. */
  lemma AddedEarlier(items: seq<FeedItem>, fates: seq<Fate>, i: nat, k: nat)
    requires i < k <= |items| && |items| == |fates| && fates[i].Added?
    ensures |AddedItems(items[..i], fates[..i])| < |AddedItems(items[..k], fates[..k])|
    ensures |AddedItems(items[..k], fates[..k])| <= |AddedItems(items, fates)|
    ensures AddedItems(items, fates)[|AddedItems(items[..i], fates[..i])|] == items[i]
  {
    var before := AddedItems(items[..i], fates[..i]);
    var upTo := AddedItems(items[..i + 1], fates[..i + 1]);
    var toK := AddedItems(items[..k], fates[..k]);
    var all := AddedItems(items, fates);
    var p := |before|;
    AddedAt(items, fates, i);
    assert upTo[p] == items[i];
    AddedPrefix(items, fates, i + 1, k);
    assert toK[..|upTo|] == upTo;
    assert toK[p] == items[i];
    AddedPrefix(items, fates, k, |items|);
    assert items[..|items|] == items && fates[..|items|] == fates;
    assert all[..|toK|] == toK;
    assert all[p] == toK[p];
  }

  /** The row of the p-th added item holds that item's link. */
  lemma NewRowLink(codec: JsonCodec, ctx: ImportContext, opps: seq<Opportunity>, n0: nat, added: seq<FeedItem>, p: nat)
    requires NewRows(codec, ctx, opps, n0, added) && p < |added|
    ensures n0 + p < |opps| && opps[n0 + p].jdUrl == Some(added[p].link)
  {
    assert opps[n0 + p] == AddedRow(codec, ctx, added[p], opps[n0 + p].id);
    AddedRowShape(codec, ctx, added[p], opps[n0 + p].id);
  }

  /** An item whose link a row of the store before it holds is skipped. */
  lemma StoredBeforeSkipped(ctx: ImportContext, seen: seq<FeedItem>, fates: seq<Fate>, opps: seq<Opportunity>,
                            n0: nat, k: nat, j: nat)
    requires FatesExact(ctx, seen, fates, opps, n0) && k < |seen|
    requires j < n0 + |AddedItems(seen[..k], fates[..k])| && j < |opps|
    requires opps[j].jdUrl == Some(seen[k].link)
    ensures fates[k].Skipped?
  {
    assert FateAt(ctx, seen, fates, opps, n0, k);
    var m := n0 + |AddedItems(seen[..k], fates[..k])|;
    assert opps[..m][j] == opps[j];
  }

  /**
   * `poll_feeds`' dedup: an item whose link was stored before the poll, or belongs to an item
   * added earlier in the same poll, is skipped.
   */
  lemma DuplicateSkipped(codec: JsonCodec, ctx: ImportContext, seen: seq<FeedItem>, fates: seq<Fate>,
                         opps: seq<Opportunity>, n0: nat, k: nat)
    requires FatesExact(ctx, seen, fates, opps, n0) && NewRows(codec, ctx, opps, n0, AddedItems(seen, fates))
    requires k < |seen|
    requires LinkStored(opps[..n0], seen[k].link) ||
             exists i :: 0 <= i < k && fates[i].Added? && seen[i].link == seen[k].link
    ensures fates[k].Skipped?
  {
    if LinkStored(opps[..n0], seen[k].link) {
      var j :| 0 <= j < n0 && opps[..n0][j].jdUrl == Some(seen[k].link);
      StoredBeforeSkipped(ctx, seen, fates, opps, n0, k, j);
    } else {
      var i :| 0 <= i < k && fates[i].Added? && seen[i].link == seen[k].link;
      AddedEarlier(seen, fates, i, k);
      var p := |AddedItems(seen[..i], fates[..i])|;
      NewRowLink(codec, ctx, opps, n0, AddedItems(seen, fates), p);
      StoredBeforeSkipped(ctx, seen, fates, opps, n0, k, n0 + p);
    }
  }

  /** Every item of the run that repeats a stored link, or the link of an earlier added item, is skipped. */
  lemma DuplicatesSkipped(codec: JsonCodec, ctx: ImportContext, seen: seq<FeedItem>, fates: seq<Fate>,
                          opps: seq<Opportunity>, n0: nat)
    requires FatesExact(ctx, seen, fates, opps, n0) && NewRows(codec, ctx, opps, n0, AddedItems(seen, fates))
    ensures forall k :: 0 <= k < |seen| &&
                        (LinkStored(opps[..n0], seen[k].link) ||
                         exists i :: 0 <= i < k && fates[i].Added? && seen[i].link == seen[k].link)
                        ==> fates[k].Skipped?
  {
    forall k | 0 <= k < |seen| &&
               (LinkStored(opps[..n0], seen[k].link) ||
                exists i :: 0 <= i < k && fates[i].Added? && seen[i].link == seen[k].link)
      ensures fates[k].Skipped?
    {
      DuplicateSkipped(codec, ctx, seen, fates, opps, n0, k);
    }
  }

  /**
   * The state of a poll after the items `seen`: the counters tally their fates, the rows and log
   * entries from before the poll are kept, and the rows from index `n0` on are the rows of the
   * added items, in order, with links no other row has.
   */
  ghost predicate Progress(codec: JsonCodec, ctx: ImportContext, seen: seq<FeedItem>, r: PollResult, fates: seq<Fate>,
                           opps: seq<Opportunity>, log: seq<ActivityRow>,
                           n0: nat, opps0: seq<Opportunity>, log0: seq<ActivityRow>)
  {
    && n0 <= |opps| && FreshLinks(opps, n0) && FeedRows(opps, n0)
    && r == Tally(fates) && FatesExact(ctx, seen, fates, opps, n0)
    && NewRows(codec, ctx, opps, n0, AddedItems(seen, fates))
    && |opps| == n0 + r.added
    && |opps0| <= |opps| && opps[..|opps0|] == opps0
    && |log0| <= |log| && log[..|log0|] == log0
    && (!ctx.shouldScore ==> OnlyNotes(log, |log0|))
  }

  /** The import loop over one feed's items. */
  method ImportItems(db: Store, ctx: ImportContext, items: seq<FeedItem>, r0: PollResult, ghost fates0: seq<Fate>,
                     ghost done: seq<FeedItem>, ghost n0: nat, ghost opps0: seq<Opportunity>, ghost log0: seq<ActivityRow>)
    returns (r: PollResult, ghost fates: seq<Fate>)
    requires db.Valid() && Progress(db.codec, ctx, done, r0, fates0, db.opps, db.log, n0, opps0, log0)
    modifies db`opps, db`nextOppId, db`log, db`nextActivityId
    ensures db.Valid() && Progress(db.codec, ctx, done + items, r, fates, db.opps, db.log, n0, opps0, log0)
  {
    r, fates := r0, fates0;
    var j := 0;
    assert done + items[..0] == done;
    while j < |items|
      invariant 0 <= j <= |items|
      invariant db.Valid() && Progress(db.codec, ctx, done + items[..j], r, fates, db.opps, db.log, n0, opps0, log0)
    {
      r, fates := ImportTurn(db, ctx, items, j, r, fates, done, n0, opps0, log0);
      j := j + 1;
    }
    assert items[..j] == items;
  }

  /** One turn of the import loop: the item's fate is taken against the store before it and counted. */
  method ImportTurn(db: Store, ctx: ImportContext, items: seq<FeedItem>, j: nat, r0: PollResult, ghost fates0: seq<Fate>,
                    ghost done: seq<FeedItem>, ghost n0: nat, ghost opps0: seq<Opportunity>, ghost log0: seq<ActivityRow>)
    returns (r: PollResult, ghost fates: seq<Fate>)
    requires j < |items|
    requires db.Valid() && Progress(db.codec, ctx, done + items[..j], r0, fates0, db.opps, db.log, n0, opps0, log0)
    modifies db`opps, db`nextOppId, db`log, db`nextActivityId
    ensures db.Valid() && Progress(db.codec, ctx, done + items[..j + 1], r, fates, db.opps, db.log, n0, opps0, log0)
    ensures fates == fates0 + [ItemFate(ctx, old(db.opps), items[j])]
  {
    var item := items[j];
    ghost var seen := done + items[..j];
    assert done + items[..j + 1] == seen + [item];
    ghost var opps1 := db.opps;
    ghost var log1 := db.log;
    ghost var id := db.nextOppId;
    r := ImportStep(db, ctx, item, r0, n0);
    ProgressStep(db.codec, ctx, seen, item, r0, fates0, opps1, log1, id, r, db.opps, db.log, n0, opps0, log0);
    fates := fates0 + [ItemFate(ctx, opps1, item)];
  }

  /** The poll's state after one more item, given what importing it did to the rows and the log. */
  lemma ProgressStep(codec: JsonCodec, ctx: ImportContext, seen: seq<FeedItem>, item: FeedItem,
                     r0: PollResult, fates0: seq<Fate>, opps1: seq<Opportunity>, log1: seq<ActivityRow>, id: int,
                     r: PollResult, opps2: seq<Opportunity>, log2: seq<ActivityRow>,
                     n0: nat, opps0: seq<Opportunity>, log0: seq<ActivityRow>)
    requires Progress(codec, ctx, seen, r0, fates0, opps1, log1, n0, opps0, log0)
    requires r == Count(r0, ItemFate(ctx, opps1, item))
    requires ItemFate(ctx, opps1, item).Added? ==> opps2 == opps1 + [AddedRow(codec, ctx, item, id)]
    requires !ItemFate(ctx, opps1, item).Added? ==> opps2 == opps1
    requires FreshLinks(opps2, n0) && FeedRows(opps2, n0) && |opps2| == n0 + r.added
    requires |log1| <= |log2| && log2[..|log1|] == log1
    requires !ctx.shouldScore ==> OnlyNotes(log2, |log1|)
    ensures Progress(codec, ctx, seen + [item], r, fates0 + [ItemFate(ctx, opps1, item)], opps2, log2, n0, opps0, log0)
  {
    var f := ItemFate(ctx, opps1, item);
    assert opps2[..|opps1|] == opps1;
    FatesExactStep(ctx, seen, fates0, opps1, n0, item, opps2);
    AddedSnoc(seen, fates0, item, f);
    if f.Added? {
      NewRowsSnoc(codec, ctx, opps1, n0, AddedItems(seen, fates0), item, id);
    }
    TallySnoc(fates0, f);
    assert opps2[..|opps0|] == opps1[..|opps0|];
    assert log2[..|log0|] == log1[..|log0|];
    if !ctx.shouldScore {
      OnlyNotesJoin(log1, log2, |log0|);
    }
  }

  /** One item imported and counted, keeping the poll's invariants. */
  method ImportStep(db: Store, ctx: ImportContext, item: FeedItem, r0: PollResult, ghost n0: nat)
    returns (r: PollResult)
    requires db.Valid() && n0 <= |db.opps| && FreshLinks(db.opps, n0) && FeedRows(db.opps, n0)
    requires |db.opps| == n0 + r0.added && |r0.newTitles| == r0.added
    modifies db`opps, db`nextOppId, db`log, db`nextActivityId
    ensures db.Valid() && n0 <= |db.opps| && FreshLinks(db.opps, n0) && FeedRows(db.opps, n0)
    ensures r == Count(r0, ItemFate(ctx, old(db.opps), item))
    ensures ItemFate(ctx, old(db.opps), item).Added? ==>
              db.opps == old(db.opps) + [AddedRow(db.codec, ctx, item, old(db.nextOppId))]
    ensures !ItemFate(ctx, old(db.opps), item).Added? ==> db.opps == old(db.opps)
    ensures |r.newTitles| == r.added && |db.opps| == n0 + r.added
    ensures |old(db.opps)| <= |db.opps| && db.opps[..|old(db.opps)|] == old(db.opps)
    ensures |old(db.log)| <= |db.log| && db.log[..|old(db.log)|] == old(db.log)
    ensures !ctx.shouldScore ==> OnlyNotes(db.log, |old(db.log)|)
  {
    ghost var opps1 := db.opps;
    ghost var log1 := db.log;
    ghost var id := db.nextOppId;
    var f := ImportItem(db, ctx, item);
    if f.Added? {
      AddedRowShape(db.codec, ctx, item, id);
      AddedKeepsFresh(opps1, n0, AddedRow(db.codec, ctx, item, id), item.link);
      assert db.opps[..|opps1|] == opps1;
    }
    if !ctx.shouldScore {
      NoScoreNotes(ctx, item, f, id);
      forall k | |log1| <= k < |db.log|
        ensures db.log[k].entry.kind == NoteAdded
      {
        assert db.log[k] == db.log[|log1|..][k - |log1|];
        assert Entries(db.log[|log1|..])[k - |log1|] in FateEntries(ctx, item, f, id);
      }
    }
    r := Count(r0, f);
  }

  /** An added row is a Prospect row from source Other with the item's link. */
  lemma AddedRowShape(codec: JsonCodec, ctx: ImportContext, item: FeedItem, id: int)
    ensures var o := AddedRow(codec, ctx, item, id);
            o.jdUrl == Some(item.link) && o.stage == Initial && o.source == Some("Other") && o.id == id
  {
  }

  lemma AddedKeepsFresh(opps: seq<Opportunity>, n0: nat, o: Opportunity, link: string)
    requires n0 <= |opps| && FreshLinks(opps, n0) && FeedRows(opps, n0)
    requires o.jdUrl == Some(link) && !LinkStored(opps, link) && o.stage == Initial && o.source == Some("Other")
    ensures FreshLinks(opps + [o], n0) && FeedRows(opps + [o], n0)
    ensures (opps + [o])[..n0] == opps[..n0]
  {
    var t := opps + [o];
    forall i, j | 0 <= i < j < |t| && n0 <= j
      ensures t[i].jdUrl != t[j].jdUrl
    {
      if j == |opps| {
        assert t[i] == opps[i];
      }
    }
  }

  /** The items one feed URL yields: none for a blank URL. */
  function UrlFeed(url: string, fetch: string -> Option<FeedDoc>): seq<FeedItem> {
    if Strip(url) == [] then [] else FeedItems(fetch(Strip(url)))
  }

  /** The items of all the feed URLs, in URL order. */
  function PolledItems(urls: seq<string>, fetch: string -> Option<FeedDoc>): seq<FeedItem> {
    if urls == [] then [] else PolledItems(urls[..|urls| - 1], fetch) + UrlFeed(urls[|urls| - 1], fetch)
  }

  /** The items of one more URL follow those of the URLs before it. */
  lemma PolledSnoc(urls: seq<string>, i: nat, fetch: string -> Option<FeedDoc>)
    requires i < |urls|
    ensures PolledItems(urls[..i + 1], fetch) == PolledItems(urls[..i], fetch) + UrlFeed(urls[i], fetch)
  {
    assert urls[..i + 1][..i] == urls[..i];
  }

  /** What stays fixed during one `poll_feeds` call. */
  function PollContext(keywordFilter: Option<seq<string>>, autoScore: bool, minScore: int, resumeText: string,
                       scorer: (string, string) -> Option<Value>, createOk: string -> bool,
                       action: NextAction, today: int): (ctx: ImportContext)
    ensures ctx.shouldScore <==> autoScore && Strip(resumeText) != []
    ensures ctx.kws == Keywords(keywordFilter) && ctx.minScore == minScore && ctx.action == action
  {
    ImportContext(Keywords(keywordFilter), autoScore && Strip(resumeText) != [], minScore, resumeText,
                  scorer, createOk, action, today)
  }

  /**
   * `poll_feeds`. The result is the tally of one fate per item of the non-blank feed URLs, in
   * order; each fate is the item's fate against a store without its link, or a skip for a link
   * the store holds. Earlier rows stay; the rows the poll leaves behind are those of the added
   * items, in order, and no two of them share a link. Without scoring nothing is filtered and
   * only Note Added entries are logged. A failing Prospect lookup aborts before anything is
   * fetched.
   */
  method PollFeeds(db: Store, cfg: EngineConfig, feedUrls: seq<string>, keywordFilter: Option<seq<string>>,
                   autoScore: bool, minScore: int, resumeText: string,
                   fetch: string -> Option<FeedDoc>, scorer: (string, string) -> Option<Value>,
                   createOk: string -> bool, today: int)
    returns (r: Result<PollResult, EngineError>, ghost fates: seq<Fate>)
    requires db.Valid()
    modifies db`opps, db`nextOppId, db`log, db`nextActivityId
    ensures db.Valid()
    ensures CalculateNextAction(cfg, Initial).Err? ==>
              r == Err(InvalidStage) && db.opps == old(db.opps) && db.log == old(db.log)
    ensures CalculateNextAction(cfg, Initial).Ok? ==>
              var ctx := PollContext(keywordFilter, autoScore, minScore, resumeText, scorer, createOk,
                                     CalculateNextAction(cfg, Initial).value, today);
              && r == Ok(Tally(fates))
              && FatesExact(ctx, PolledItems(feedUrls, fetch), fates, db.opps, |old(db.opps)|)
              && FatesFit(ctx, PolledItems(feedUrls, fetch), fates, db.opps)
              && NewRows(db.codec, ctx, db.opps, |old(db.opps)|, AddedItems(PolledItems(feedUrls, fetch), fates))
              && Processed(r.value) == |PolledItems(feedUrls, fetch)|
              && |db.opps| == |old(db.opps)| + r.value.added
    ensures var added := AddedItems(PolledItems(feedUrls, fetch), fates);
            forall i, j :: 0 <= i < j < |added| ==> added[i].link != added[j].link
    ensures r.Ok? ==>
              var items := PolledItems(feedUrls, fetch);
              forall k :: 0 <= k < |items| &&
                          (LinkStored(old(db.opps), items[k].link) ||
                           exists i :: 0 <= i < k && fates[i].Added? && items[i].link == items[k].link)
                          ==> fates[k].Skipped?
    ensures !autoScore || Strip(resumeText) == [] ==>
              (r.Ok? ==> r.value.filtered == 0) && OnlyNotes(db.log, |old(db.log)|)
    ensures |old(db.opps)| <= |db.opps| && db.opps[..|old(db.opps)|] == old(db.opps)
    ensures FreshLinks(db.opps, |old(db.opps)|) && FeedRows(db.opps, |old(db.opps)|)
    ensures |old(db.log)| <= |db.log| && db.log[..|old(db.log)|] == old(db.log)
  {
    fates := [];
    var next := CalculateNextAction(cfg, Initial);
    if next.Err? {
      return Err(next.error), fates;
    }
    var ctx := PollContext(keywordFilter, autoScore, minScore, resumeText, scorer, createOk, next.value, today);
    var res;
    res, fates := PollUrls(db, ctx, feedUrls, fetch);
    TallyProcessed(fates);
    ExactFits(ctx, PolledItems(feedUrls, fetch), fates, db.opps, |old(db.opps)|);
    AddedLinksDistinct(db.codec, ctx, db.opps, |old(db.opps)|, AddedItems(PolledItems(feedUrls, fetch), fates));
    DuplicatesSkipped(db.codec, ctx, PolledItems(feedUrls, fetch), fates, db.opps, |old(db.opps)|);
    if !ctx.shouldScore {
      forall k | 0 <= k < |fates|
        ensures !fates[k].Filtered?
      {
        FatesMeaning(ctx, PolledItems(feedUrls, fetch), fates, db.opps, k);
      }
      TallyUnfiltered(fates);
    }
    r := Ok(res);
  }

  /** The counters `poll_feeds` starts from: all zero, no new titles. */
  method NoResults() returns (r: PollResult, ghost fates: seq<Fate>)
    ensures |fates| == 0 && r == Tally(fates)
  {
    r, fates := PollResult(0, 0, 0, 0, []), [];
  }

  /** The outer loop of `poll_feeds`: blank URLs are passed over, every other one is fetched and imported. */
  method PollUrls(db: Store, ctx: ImportContext, feedUrls: seq<string>, fetch: string -> Option<FeedDoc>)
    returns (res: PollResult, ghost fates: seq<Fate>)
    requires db.Valid()
    modifies db`opps, db`nextOppId, db`log, db`nextActivityId
    ensures db.Valid()
    ensures res == Tally(fates) && FatesExact(ctx, PolledItems(feedUrls, fetch), fates, db.opps, |old(db.opps)|)
    ensures NewRows(db.codec, ctx, db.opps, |old(db.opps)|, AddedItems(PolledItems(feedUrls, fetch), fates))
    ensures |db.opps| == |old(db.opps)| + res.added
    ensures |old(db.opps)| <= |db.opps| && db.opps[..|old(db.opps)|] == old(db.opps)
    ensures FreshLinks(db.opps, |old(db.opps)|) && FeedRows(db.opps, |old(db.opps)|)
    ensures |old(db.log)| <= |db.log| && db.log[..|old(db.log)|] == old(db.log)
    ensures !ctx.shouldScore ==> OnlyNotes(db.log, |old(db.log)|)
  {
    ghost var n0, opps0, log0 := |db.opps|, db.opps, db.log;
    res, fates := NoResults();
    assert feedUrls[..0] == [] && opps0[..n0] == opps0 && log0[..|log0|] == log0;
    var i := 0;
    while i < |feedUrls|
      invariant db.Valid() && Polled(db.codec, ctx, feedUrls, fetch, i, res, fates, db.opps, db.log, n0, opps0, log0)
    {
      res, fates := PollStep(db, ctx, feedUrls, i, fetch, res, fates, n0, opps0, log0);
      i := i + 1;
    }
    assert feedUrls[..i] == feedUrls;
  }

  /** The state of a poll after the first `i` feed URLs. */
  ghost predicate Polled(codec: JsonCodec, ctx: ImportContext, feedUrls: seq<string>, fetch: string -> Option<FeedDoc>, i: nat,
                         r: PollResult, fates: seq<Fate>, opps: seq<Opportunity>, log: seq<ActivityRow>,
                         n0: nat, opps0: seq<Opportunity>, log0: seq<ActivityRow>)
  {
    i <= |feedUrls| && Progress(codec, ctx, PolledItems(feedUrls[..i], fetch), r, fates, opps, log, n0, opps0, log0)
  }

  /** One turn of the outer loop. */
  method PollStep(db: Store, ctx: ImportContext, feedUrls: seq<string>, i: nat, fetch: string -> Option<FeedDoc>,
                  r0: PollResult, ghost fates0: seq<Fate>,
                  ghost n0: nat, ghost opps0: seq<Opportunity>, ghost log0: seq<ActivityRow>)
    returns (r: PollResult, ghost fates: seq<Fate>)
    requires i < |feedUrls|
    requires db.Valid() && Polled(db.codec, ctx, feedUrls, fetch, i, r0, fates0, db.opps, db.log, n0, opps0, log0)
    modifies db`opps, db`nextOppId, db`log, db`nextActivityId
    ensures db.Valid() && Polled(db.codec, ctx, feedUrls, fetch, i + 1, r, fates, db.opps, db.log, n0, opps0, log0)
  {
    PolledSnoc(feedUrls, i, fetch);
    r, fates := PollUrl(db, ctx, feedUrls[i], fetch, r0, fates0, PolledItems(feedUrls[..i], fetch), n0, opps0, log0);
  }

  /** One feed URL: passed over when blank, otherwise its items fetched and imported. */
  method PollUrl(db: Store, ctx: ImportContext, url: string, fetch: string -> Option<FeedDoc>, r0: PollResult,
                 ghost fates0: seq<Fate>, ghost done: seq<FeedItem>,
                 ghost n0: nat, ghost opps0: seq<Opportunity>, ghost log0: seq<ActivityRow>)
    returns (r: PollResult, ghost fates: seq<Fate>)
    requires db.Valid() && Progress(db.codec, ctx, done, r0, fates0, db.opps, db.log, n0, opps0, log0)
    modifies db`opps, db`nextOppId, db`log, db`nextActivityId
    ensures db.Valid() && Progress(db.codec, ctx, done + UrlFeed(url, fetch), r, fates, db.opps, db.log, n0, opps0, log0)
  {
    r, fates := r0, fates0;
    if Strip(url) != [] {
      var items := FetchFeed(url, fetch);
      r, fates := ImportItems(db, ctx, items, r0, fates0, done, n0, opps0, log0);
    } else {
      assert done + UrlFeed(url, fetch) == done;
    }
  }
}
