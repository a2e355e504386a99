/**
  The captioning service (services/geminiService.ts). `analyzePhoto` reads
  the image behind a url as a data URL, strips the data-URL prefix, sends the
  remaining base64 text to the generative model with a fixed prompt, and
  parses the JSON text it answers. Every failure along the way is caught and
  turned into one fixed caption, so the caller always gets a result.

  The foreign calls are parameters: `read` stands for `fetch`, `blob()` and
  the `FileReader` (a url to a data URL, or a rejection), `generate` for the
  model call (a request to the response's `text`, which may be undefined, or
  an exception) and `parse` for `JSON.parse` (a text to a value, or an exception).
 */
module Gemini {
  import opened Types

  /** The outcome of a step that may throw or reject. */
  datatype Attempt<+T> = Done(value: T) | Failed

  const ModelName: string := "gemini-2.5-flash"
  const ImageMimeType: string := "image/jpeg"
  const Prompt: string :=
    "Generate a fun, short, social media caption for this photo booth picture. Also provide 3 hashtags."
  const ResponseMimeType: string := "application/json"

  /** The fields of the model call that the code fills in; `data` is undefined when the split found no comma. */
  datatype Request = Request(
    model: string,
    mimeType: string,
    data: Option<string>,
    prompt: string,
    responseMimeType: string)

  /**
    The result returned whenever anything in `analyzePhoto` fails: a
    non-empty caption with three hashtags.
   */
  function FallbackResult(): (r: AiAnalysisResult)
    ensures r.caption == "Looks like a great time!"
    ensures r.tags == ["#photobooth", "#fun", "#memories"]
    ensures r.caption != [] && |r.tags| == 3
    ensures forall i :: 0 <= i < |r.tags| ==> |r.tags[i]| > 1 && r.tags[i][0] == '#'
  {
    AiAnalysisResult("Looks like a great time!", ["#photobooth", "#fun", "#memories"])
  }

  /** JavaScript's `s.split(sep)` for a one-character separator: the pieces between the separators. */
  function Split(s: string, sep: char): (parts: seq<string>)
    ensures |parts| >= 1
    ensures forall i :: 0 <= i < |parts| ==> sep !in parts[i]
    decreases |s|
  {
    if s == [] then [""]
    else
      var rest := Split(s[1..], sep);
      if s[0] == sep then [""] + rest
      else [[s[0]] + rest[0]] + rest[1..]
  }

  /** The pieces glued back together with the separator between them (`parts.join(sep)`). */
  function Join(parts: seq<string>, sep: char): string
    requires |parts| >= 1
    decreases |parts|
  {
    if |parts| == 1 then parts[0] else parts[0] + [sep] + Join(parts[1..], sep)
  }

  lemma {:induction false} JoinConsHead(c: char, parts: seq<string>, sep: char)
    requires |parts| >= 1
    ensures Join([[c] + parts[0]] + parts[1..], sep) == [c] + Join(parts, sep)
  {
    var glued := [[c] + parts[0]] + parts[1..];
    assert glued[0] == [c] + parts[0] && glued[1..] == parts[1..];
    if |parts| > 1 {
      assert Join(glued, sep) == [c] + parts[0] + [sep] + Join(parts[1..], sep);
    }
  }

  /** Splitting loses nothing: joining the pieces gives the text back. */
  lemma {:induction false} JoinSplit(s: string, sep: char)
    ensures Join(Split(s, sep), sep) == s
    decreases |s|
  {
    if s != [] {
      var rest := Split(s[1..], sep);
      JoinSplit(s[1..], sep);
      if s[0] == sep {
        var parts := [""] + rest;
        assert parts[1..] == rest;
        assert Join(parts, sep) == "" + [sep] + Join(rest, sep);
        assert s == [s[0]] + s[1..];
      } else {
        JoinConsHead(s[0], rest, sep);
        assert s == [s[0]] + s[1..];
      }
    }
  }

  /** A text without the separator is a single piece. */
  lemma {:induction false} SplitNoSeparator(s: string, sep: char)
    requires sep !in s
    ensures Split(s, sep) == [s]
    decreases |s|
  {
    if s != [] {
      assert sep !in s[1..] by {
        assert forall x :: x in s[1..] ==> x in s;
      }
      SplitNoSeparator(s[1..], sep);
      assert s == [s[0]] + s[1..];
    }
  }

  /** A separator-free head followed by a separator is the first piece, and the rest splits on its own. */
  lemma {:induction false} SplitAtSeparator(p: string, sep: char, rest: string)
    requires sep !in p
    ensures Split(p + [sep] + rest, sep) == [p] + Split(rest, sep)
    decreases |p|
  {
    var s := p + [sep] + rest;
    if p == [] {
      assert s[0] == sep && s[1..] == rest;
    } else {
      assert s[0] == p[0];
      assert s[1..] == p[1..] + [sep] + rest;
      assert sep !in p[1..] by {
        assert forall x :: x in p[1..] ==> x in p;
      }
      SplitAtSeparator(p[1..], sep, rest);
      assert [p[0]] + p[1..] == p;
    }
  }

  /** Joining separator-free pieces and splitting again gives the pieces back. */
  lemma {:induction false} SplitJoin(parts: seq<string>, sep: char)
    requires |parts| >= 1
    requires forall i :: 0 <= i < |parts| ==> sep !in parts[i]
    ensures Split(Join(parts, sep), sep) == parts
    decreases |parts|
  {
    if |parts| == 1 {
      SplitNoSeparator(parts[0], sep);
    } else {
      SplitJoin(parts[1..], sep);
      SplitAtSeparator(parts[0], sep, Join(parts[1..], sep));
      assert parts == [parts[0]] + parts[1..];
    }
  }

  /**
    `base64String.split(',')[1]`: the piece after the first comma, up to the
    next comma if there is one; undefined (`None`) when there is no comma.
   */
  function StripDataUrlPrefix(dataUrl: string): (r: Option<string>)
    ensures r.Some? ==> ',' !in r.value
    ensures r.None? <==> ',' !in dataUrl
  {
    var parts := Split(dataUrl, ',');
    if |parts| > 1 then
      assert ',' in dataUrl by {
        JoinSplit(dataUrl, ',');
        assert Join(parts, ',')[|parts[0]|] == ',';
      }
      Some(parts[1])
    else
      assert dataUrl == Join(parts, ',') by { JoinSplit(dataUrl, ','); }
      None
  }

  /** For a data URL with exactly one comma the strip returns everything after it. */
  lemma StripOneComma(prefix: string, payload: string)
    requires ',' !in prefix && ',' !in payload
    ensures StripDataUrlPrefix(prefix + "," + payload) == Some(payload)
  {
    SplitAtSeparator(prefix, ',', payload);
    SplitNoSeparator(payload, ',');
  }

  /** With more commas it returns only the piece between the first and the second. */
  lemma StripFirstPiece(prefix: string, rest: string)
    requires ',' !in prefix
    ensures StripDataUrlPrefix(prefix + "," + rest) == Some(Split(rest, ',')[0])
  {
    SplitAtSeparator(prefix, ',', rest);
  }

  /** `urlToBase64`: the data URL of the image with its prefix stripped, or a rejection. */
  function UrlToBase64(url: string, read: string -> Attempt<string>): (r: Attempt<Option<string>>)
    ensures r.Failed? <==> read(url).Failed?
    ensures r.Done? ==> r.value == StripDataUrlPrefix(read(url).value)
  {
    match read(url)
    case Failed => Failed
    case Done(dataUrl) => Done(StripDataUrlPrefix(dataUrl))
  }

  /**
    The model call that `analyzePhoto` makes for a given base64 payload: the
    payload is passed on as it is, beside the fixed model, image type,
    prompt and JSON answer type.
   */
  function CaptionRequest(data: Option<string>): (q: Request)
    ensures q.data == data
    ensures q.model == "gemini-2.5-flash" && q.mimeType == "image/jpeg"
    ensures q.responseMimeType == "application/json"
    ensures q.prompt == Prompt
  {
    Request(ModelName, ImageMimeType, data, Prompt, ResponseMimeType)
  }

  /**
    The body of the `try` block: `Failed` stands for any exception it raises.
    It succeeds only when the image was read, the model answered with a
    non-empty text for the stripped payload, and that text parsed to the value returned.
   */
  function TryAnalyze(
    url: string,
    read: string -> Attempt<string>,
    generate: Request -> Attempt<Option<string>>,
    parse: string -> Attempt<AiAnalysisResult>): (r: Attempt<AiAnalysisResult>)
    ensures read(url).Failed? ==> r.Failed?
    ensures r.Done? ==>
      && read(url).Done?
      && var answer := generate(CaptionRequest(StripDataUrlPrefix(read(url).value)));
      && answer.Done? && answer.value.Some? && answer.value.value != ""
      && parse(answer.value.value) == r
  {
    match UrlToBase64(url, read)
    case Failed => Failed
    case Done(data) =>
      match generate(CaptionRequest(data))
      case Failed => Failed
      case Done(text) =>
        if text.None? || text.value == "" then Failed else parse(text.value)
  }

  /**
    `analyzePhoto`: never fails. Its result is the fixed fallback, or exactly
    what parsing some non-empty response text produced.
   */
  function AnalyzePhoto(
    url: string,
    read: string -> Attempt<string>,
    generate: Request -> Attempt<Option<string>>,
    parse: string -> Attempt<AiAnalysisResult>): (r: AiAnalysisResult)
    ensures r == FallbackResult() || exists t :: t != "" && parse(t) == Done(r)
  {
    match TryAnalyze(url, read, generate, parse)
    case Failed => FallbackResult()
    case Done(v) =>
      var text := generate(CaptionRequest(UrlToBase64(url, read).value)).value.value;
      assert parse(text) == Done(v);
      v
  }

  /** Each way the request can fail ends in the fallback result. */
  lemma AnalyzeFailures(
    url: string,
    read: string -> Attempt<string>,
    generate: Request -> Attempt<Option<string>>,
    parse: string -> Attempt<AiAnalysisResult>)
    ensures read(url).Failed? ==> AnalyzePhoto(url, read, generate, parse) == FallbackResult()
    ensures read(url).Done? ==>
      var request := CaptionRequest(StripDataUrlPrefix(read(url).value));
      && (generate(request).Failed? ==> AnalyzePhoto(url, read, generate, parse) == FallbackResult())
      && (generate(request) == Done(None) ==> AnalyzePhoto(url, read, generate, parse) == FallbackResult())
      && (generate(request) == Done(Some("")) ==> AnalyzePhoto(url, read, generate, parse) == FallbackResult())
      && (forall t :: generate(request) == Done(Some(t)) && t != "" && parse(t).Failed? ==>
            AnalyzePhoto(url, read, generate, parse) == FallbackResult())
  {
  }

  /**
    When every step succeeds and the answer is a non-empty text, the parsed
    value is handed back as it is: nothing checks it against the schema.
   */
  lemma AnalyzeSuccess(
    url: string,
    read: string -> Attempt<string>,
    generate: Request -> Attempt<Option<string>>,
    parse: string -> Attempt<AiAnalysisResult>,
    dataUrl: string, text: string, v: AiAnalysisResult)
    requires read(url) == Done(dataUrl)
    requires generate(CaptionRequest(StripDataUrlPrefix(dataUrl))) == Done(Some(text))
    requires text != "" && parse(text) == Done(v)
    ensures AnalyzePhoto(url, read, generate, parse) == v
  {
  }
}
