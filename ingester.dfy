/**
 * ingester.py: deciding whether a job-description source is a URL or pasted text, cleaning the
 * lines of a fetched page, and attaching the raw text and URL to the extractor's structured dict.
 * The HTTP request and the HTML parsing are one injected function, and so is the AI extractor.
 */
module Ingester {
  import opened Wrappers
  import opened Text
  import opened Values

  /** The two exceptions `ingest_jd` lets out. */
  datatype IngestError =
    | RuntimeError(message: string)   // the URL could not be fetched or parsed; carries the message
    | ValueError(length: nat)     // neither a URL nor long enough; carries the stripped length

  /** The message of the RuntimeError raised for a failed fetch: a fixed prefix and the text of the exception. */
  function FetchFailure(cause: string): string {
    "Could not fetch JD from URL: " + cause
  }

  /** The threshold below which pasted text is refused: it must be strictly longer. */
  const MinTextLength: nat := 200

  // ---------------------------------------------------------------------------
  // cleaning of fetched text
  // ---------------------------------------------------------------------------

  /** `_fetch_url`'s clean-up: every line stripped, blank lines dropped, the rest joined by "\n". */
  function CleanText(text: string): string {
    Join(CleanSplit(text, LineBreaks), "\n")
  }

  /** The first and last characters of a join of non-empty parts are those of its first and last part. */
  lemma {:induction false} JoinEnds(parts: seq<string>, sep: string)
    requires |parts| >= 1
    requires forall k :: 0 <= k < |parts| ==> parts[k] != []
    ensures var j := Join(parts, sep);
            j != [] && j[0] == parts[0][0] && j[|j| - 1] == parts[|parts| - 1][|parts[|parts| - 1]| - 1]
  {
    if |parts| > 1 {
      assert forall k :: 0 <= k < |parts| - 1 ==> parts[1..][k] == parts[k + 1];
      JoinEnds(parts[1..], sep);
    }
  }

  /** The cleaned text has exactly the cleaned lines of the page: the clean-up keeps every non-blank line, stripped, in order. */
  lemma CleanTextLines(text: string)
    ensures CleanSplit(CleanText(text), LineBreaks) == CleanSplit(text, LineBreaks)
  {
    if CleanSplit(text, LineBreaks) == [] {
      CleanSplitEmpty();
    } else {
      CleanLinesOf(text);
    }
  }

  /** Non-empty cleaned text splits back into its lines. */
  lemma CleanLinesOf(text: string)
    requires CleanSplit(text, LineBreaks) != []
    ensures CleanSplit(CleanText(text), LineBreaks) == CleanSplit(text, LineBreaks)
  {
    var parts := CleanSplit(text, LineBreaks);
    CleanSplitJoin(parts);
  }

  /** Empty text has no lines. */
  lemma CleanSplitEmpty()
    ensures CleanSplit("", LineBreaks) == []
  {
    assert SplitOn("", LineBreaks) == [""];
    assert [""][1..] == [];
    assert StrippedNonBlank([""]) == [];
  }

  /** Splitting a "\n"-join of clean lines gives back those lines. */
  lemma CleanSplitJoin(parts: seq<string>)
    requires |parts| >= 1
    requires forall k :: 0 <= k < |parts| ==> parts[k] != [] && IsStripped(parts[k])
    requires forall k :: 0 <= k < |parts| ==> Avoids(parts[k], LineBreaks)
    ensures CleanSplit(Join(parts, "\n"), LineBreaks) == parts
  {
    SplitJoin(parts, '\n', LineBreaks);
    StrippedNonBlankKeeps(parts);
  }

  /** Every line of non-empty cleaned text is non-blank and stripped, and lines are separated by "\n" alone. */
  lemma CleanTextNoBlankLines(text: string)
    requires CleanText(text) != []
    ensures var lines := SplitOn(CleanText(text), LineBreaks);
            forall k :: 0 <= k < |lines| ==> lines[k] != [] && IsStripped(lines[k])
    ensures OnlyNewlines(CleanText(text))
  {
    var parts := CleanSplit(text, LineBreaks);
    assert parts != [];
    SplitJoin(parts, '\n', LineBreaks);
    JoinOnlyBreaks(parts);
  }

  /** The only line boundary in `s` is "\n". */
  predicate OnlyNewlines(s: string) {
    forall i :: 0 <= i < |s| && s[i] in LineBreaks ==> s[i] == '\n'
  }

  /** A "\n"-join of line-break-free parts contains no line break but "\n". */
  lemma {:induction false} JoinOnlyBreaks(parts: seq<string>)
    requires forall k :: 0 <= k < |parts| ==> Avoids(parts[k], LineBreaks)
    ensures OnlyNewlines(Join(parts, "\n"))
  {
    if |parts| > 1 {
      assert forall k :: 0 <= k < |parts| - 1 ==> parts[1..][k] == parts[k + 1];
      JoinOnlyBreaks(parts[1..]);
      var t := Join(parts[1..], "\n");
      assert OnlyNewlines(t);
      var j := parts[0] + "\n" + t;
      assert Join(parts, "\n") == j;
      forall i | 0 <= i < |j|
        ensures j[i] in LineBreaks ==> j[i] == '\n'
      {
        if i < |parts[0]| {
          assert j[i] == parts[0][i];
          assert Avoids(parts[0], LineBreaks);
        } else if i > |parts[0]| {
          assert j[i] == t[i - |parts[0]| - 1];
        } else {
          assert j[i] == '\n';
        }
      }
    }
  }

  /** A join of non-empty stripped parts has no leading or trailing whitespace. */
  lemma JoinStripped(parts: seq<string>, sep: string)
    requires |parts| >= 1
    requires forall k :: 0 <= k < |parts| ==> parts[k] != [] && IsStripped(parts[k])
    ensures IsStripped(Join(parts, sep))
  {
    JoinEnds(parts, sep);
    var last := parts[|parts| - 1];
    assert !IsSpace(parts[0][0]) && !IsSpace(last[|last| - 1]);
  }

  /** The cleaned text has no leading or trailing whitespace. */
  lemma CleanTextStripped(text: string)
    ensures IsStripped(CleanText(text))
  {
    var parts := CleanSplit(text, LineBreaks);
    var j := CleanText(text);
    assert j == Join(parts, "\n");
    if parts != [] {
      JoinStripped(parts, "\n");
    }
  }

  /** Cleaning twice is cleaning once. */
  lemma CleanTextIdempotent(text: string)
    ensures CleanText(CleanText(text)) == CleanText(text)
  {
    CleanTextLines(text);
  }

  // ---------------------------------------------------------------------------
  // fetching and classification
  // ---------------------------------------------------------------------------

  /**
   * `_fetch_url`: `page` stands for the request and the HTML text extraction, an error carrying
   * the exception's text when either raises. A failure becomes a RuntimeError whose message is
   * `FetchFailure` of that text; otherwise the page text is cleaned.
   */
  function FetchUrl(url: string, page: string -> Result<string, string>): (r: Result<string, IngestError>)
    ensures r.Err? <==> page(url).Err?
    ensures r.Err? ==> r.error == RuntimeError(FetchFailure(page(url).error))
  {
    match page(url)
    case Err(cause) => Err(RuntimeError(FetchFailure(cause)))
    case Ok(text) => Ok(CleanText(text))
  }

  /** Fetched text is stripped and holds exactly the non-blank lines of the page, each stripped. */
  lemma FetchUrlLines(url: string, page: string -> Result<string, string>)
    requires page(url).Ok?
    ensures var r := FetchUrl(url, page);
            && r.Ok? && IsStripped(r.value)
            && CleanSplit(r.value, LineBreaks) == CleanSplit(page(url).value, LineBreaks)
  {
    var text := page(url).value;
    assert FetchUrl(url, page) == Ok(CleanText(text));
    CleanTextStripped(text);
    CleanTextLines(text);
  }

  /** A source whose lowercase form starts with "http" is taken as a URL. */
  predicate IsUrlSource(s: string) {
    StartsWith(Lower(s), "http")
  }

  /** The case of the scheme does not matter: a source is a URL exactly when its first four letters spell http in any case. */
  lemma UrlCaseInsensitive(s: string)
    ensures IsUrlSource(s) <==> |s| >= 4 && Lower(s[..4]) == "http"
  {
    if |s| >= 4 {
      assert Lower(s)[..4] == Lower(s[..4]);
    }
  }

  /** The structured dict with `raw_text` and `source_url` assigned over whatever the extractor put there. */
  function Attach(structured: map<string, Value>, rawText: string, sourceUrl: Value): map<string, Value> {
    structured["raw_text" := Str(rawText)]["source_url" := sourceUrl]
  }

  /** The two assigned keys hold what was assigned; every other key is the extractor's. */
  lemma AttachFields(structured: map<string, Value>, rawText: string, sourceUrl: Value)
    ensures var out := Attach(structured, rawText, sourceUrl);
            && "raw_text" in out && out["raw_text"] == Str(rawText)
            && "source_url" in out && out["source_url"] == sourceUrl
            && KeepsExtracted(out, structured)
  {
    assert "raw_text" != "source_url";
  }

  /** `out` agrees with `structured` on every key except the two the ingester assigns. */
  ghost predicate KeepsExtracted(out: map<string, Value>, structured: map<string, Value>) {
    forall k :: k != "raw_text" && k != "source_url" ==>
      (k in out <==> k in structured) && (k in out ==> out[k] == structured[k])
  }

  /**
   * `ingest_jd`: the source is stripped first. A URL is fetched and keeps the stripped source as
   * `source_url`; other text longer than 200 characters is its own raw text with no URL; anything
   * else is a ValueError. `extract` stands for the AI extractor.
   */
  function IngestJd(source: string, page: string -> Result<string, string>, extract: string -> map<string, Value>)
    : Result<map<string, Value>, IngestError>
  {
    IngestStripped(Strip(source), page, extract)
  }

  /** `ingest_jd` once the source is stripped. */
  function IngestStripped(s: string, page: string -> Result<string, string>, extract: string -> map<string, Value>)
    : Result<map<string, Value>, IngestError>
  {
    if IsUrlSource(s) then
      var fetched := FetchUrl(s, page);
      if fetched.Err? then Err(fetched.error)
      else Ok(Attach(extract(fetched.value), fetched.value, Str(s)))
    else if |s| > MinTextLength then
      Ok(Attach(extract(s), s, Null))
    else
      Err(ValueError(|s|))
  }

  /** A ValueError, carrying the stripped length, exactly for a non-URL source of at most 200 characters. */
  lemma IngestJdRejects(source: string, page: string -> Result<string, string>, extract: string -> map<string, Value>)
    ensures var s := Strip(source);
            var r := IngestJd(source, page, extract);
            && (r.Err? && r.error.ValueError? <==> !IsUrlSource(s) && |s| <= MinTextLength)
            && (r.Err? && r.error.ValueError? ==> r.error.length == |s|)
  {
    var s := Strip(source);
    var r := IngestJd(source, page, extract);
    assert r == IngestStripped(s, page, extract);
    if IsUrlSource(s) {
      var f := FetchUrl(s, page);
      assert f.Err? ==> f.error.RuntimeError?;
      assert r == if f.Err? then Err(f.error) else Ok(Attach(extract(f.value), f.value, Str(s)));
    } else if |s| > MinTextLength {
      assert r.Ok?;
    } else {
      assert r == Err(ValueError(|s|));
    }
  }

  /** A RuntimeError exactly when a URL source cannot be fetched, carrying the fetch failure's message. */
  lemma IngestJdFetchFails(source: string, page: string -> Result<string, string>, extract: string -> map<string, Value>)
    ensures var s := Strip(source);
            var r := IngestJd(source, page, extract);
            && (r.Err? && r.error.RuntimeError? <==> IsUrlSource(s) && page(s).Err?)
            && (r.Err? && r.error.RuntimeError? ==> r.error.message == FetchFailure(page(s).error))
  {
  }

  /** A result always carries `raw_text` and `source_url`, and every other key as the extractor returned it for that raw text. */
  lemma IngestJdFields(source: string, page: string -> Result<string, string>, extract: string -> map<string, Value>)
    requires IngestJd(source, page, extract).Ok?
    ensures var out := IngestJd(source, page, extract).value;
            && "raw_text" in out && out["raw_text"].Str?
            && "source_url" in out
            && KeepsExtracted(out, extract(out["raw_text"].s))
  {
    var s := Strip(source);
    assert IngestJd(source, page, extract) == IngestStripped(s, page, extract);
    if IsUrlSource(s) {
      var f := FetchUrl(s, page);
      assert f.Ok?;
      AttachFields(extract(f.value), f.value, Str(s));
      assert IngestJd(source, page, extract) == Ok(Attach(extract(f.value), f.value, Str(s)));
    } else {
      AttachFields(extract(s), s, Null);
      assert IngestJd(source, page, extract) == Ok(Attach(extract(s), s, Null));
    }
  }

  /** A fetched URL is stored as `source_url`, and its raw text is the cleaned page text. */
  lemma IngestJdUrl(source: string, page: string -> Result<string, string>, extract: string -> map<string, Value>)
    requires IsUrlSource(Strip(source)) && page(Strip(source)).Ok?
    ensures var out := IngestJd(source, page, extract);
            && out.Ok?
            && "source_url" in out.value && out.value["source_url"] == Str(Strip(source))
            && "raw_text" in out.value && out.value["raw_text"].Str?
            && FetchUrl(Strip(source), page) == Ok(out.value["raw_text"].s)
  {
    var s := Strip(source);
    var f := FetchUrl(s, page);
    assert f.Ok?;
    var out := Attach(extract(f.value), f.value, Str(s));
    assert IngestStripped(s, page, extract) == Ok(out);
    assert IngestJd(source, page, extract) == Ok(out);
    AttachFields(extract(f.value), f.value, Str(s));
  }

  /** Long pasted text is its own raw text, with a null `source_url`. */
  lemma IngestJdText(source: string, page: string -> Result<string, string>, extract: string -> map<string, Value>)
    requires !IsUrlSource(Strip(source)) && |Strip(source)| > MinTextLength
    ensures var out := IngestJd(source, page, extract);
            && out.Ok?
            && "source_url" in out.value && out.value["source_url"] == Null
            && "raw_text" in out.value && out.value["raw_text"] == Str(Strip(source))
  {
    var s := Strip(source);
    var out := Attach(extract(s), s, Null);
    assert IngestStripped(s, page, extract) == Ok(out);
    assert IngestJd(source, page, extract) == Ok(out);
    AttachFields(extract(s), s, Null);
  }

  /** Pasted text of exactly 200 characters is refused and one more character is accepted. */
  lemma LengthBoundary(text: string, page: string -> Result<string, string>, extract: string -> map<string, Value>)
    requires IsStripped(text) && !IsUrlSource(text)
    ensures |text| == 200 ==> IngestJd(text, page, extract) == Err(ValueError(200))
    ensures |text| == 201 ==> IngestJd(text, page, extract).Ok?
  {
    StripOfStripped(text);
  }

  /** Surrounding whitespace changes nothing: the source is classified and stored without it. */
  lemma SurroundingSpaceIgnored(pre: string, source: string, post: string,
                                page: string -> Result<string, string>, extract: string -> map<string, Value>)
    requires AllSpace(pre) && AllSpace(post) && IsStripped(source)
    ensures IngestJd(pre + source + post, page, extract) == IngestJd(source, page, extract)
  {
    StripFrame(pre, source, post);
    StripOfStripped(source);
  }
}
