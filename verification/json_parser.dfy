/**
  Ingestion control flow: suffix tests, format selection and the updates to
  the progress record. The file system, zlib and simdjson are foreign: their
  results arrive as the fields of a `Foreign` value.
*/
module JsonParser {
  import opened Wrappers
  import opened Loading

  /** The NDJSON loop reports progress after every this many documents. */
  const PROGRESS_INTERVAL: nat := 100000

  // ---------------------------------------------------------------------------
  // Suffixes and format selection
  // ---------------------------------------------------------------------------

  /** Compares `part` with `s` from position `start`, one character at a time. */
  function SameFrom(s: string, start: nat, part: string): (r: bool)
    requires start + |part| <= |s|
    ensures r <==> s[start .. start + |part|] == part
    decreases |part|
  {
    if part == [] then true
    else
      assert s[start .. start + |part|] == [s[start]] + s[start + 1 .. start + |part|];
      s[start] == part[0] && SameFrom(s, start + 1, part[1..])
  }

  /** `s` ends with `suffix`; false when the suffix is the longer. */
  function EndsWith(s: string, suffix: string): (r: bool)
    ensures r <==> |suffix| <= |s| && s[|s| - |suffix| ..] == suffix
  {
    if |suffix| > |s| then false
    else SameFrom(s, |s| - |suffix|, suffix)
  }

  /** Every string formed by appending `suffix` ends with it, and ending with it means being so formed. */
  lemma EndsWithMeansAppended(s: string, suffix: string)
    ensures EndsWith(s + suffix, suffix)
    ensures EndsWith(s, suffix) ==> s == s[.. |s| - |suffix|] + suffix
  {
    assert (s + suffix)[|s + suffix| - |suffix| ..] == suffix;
  }

  /** Ending with a string that itself ends with `suffix` means ending with `suffix`. */
  lemma EndsWithTransitive(s: string, middle: string, suffix: string)
    requires EndsWith(s, middle) && EndsWith(middle, suffix)
    ensures EndsWith(s, suffix)
  {
    var k := |s| - |middle|;
    assert s[|s| - |suffix| ..] == s[k ..][|middle| - |suffix| ..];
  }

  /** What the file name decides: decompress first, and stream as NDJSON. */
  datatype InputFormat = InputFormat(gzip: bool, ndjson: bool)

  function DetectFormat(path: string): InputFormat
  {
    InputFormat(EndsWith(path, ".gz"), EndsWith(path, ".ndjson") || EndsWith(path, ".ndjson.gz"))
  }

  /** "x.ndjson.gz" is decompressed and streamed. */
  lemma NdjsonGzFormat(stem: string)
    ensures DetectFormat(stem + ".ndjson.gz") == InputFormat(true, true)
  {
    EndsWithMeansAppended(stem, ".ndjson.gz");
    NdjsonGzTakesBothPaths(stem + ".ndjson.gz");
  }

  /** One mismatching character, counted from the end, rules a suffix out. */
  lemma NotEndsWith(s: string, suffix: string, k: nat)
    requires k < |suffix|
    requires |suffix| <= |s| ==> s[|s| - |suffix| + k] != suffix[k]
    ensures !EndsWith(s, suffix)
  {
    if |suffix| <= |s| {
      assert s[|s| - |suffix| ..][k] != suffix[k];
    }
  }

  /** "x.ndjson" is streamed without decompression. */
  lemma NdjsonFormat(stem: string)
    ensures DetectFormat(stem + ".ndjson") == InputFormat(false, true)
  {
    EndsWithMeansAppended(stem, ".ndjson");
    var n := stem + ".ndjson";
    NotEndsWith(n, ".gz", 2);
    NotEndsWith(n, ".ndjson.gz", 9);
  }

  /** "x.json" is parsed as one document without decompression. */
  lemma JsonFormat(stem: string)
    ensures DetectFormat(stem + ".json") == InputFormat(false, false)
  {
    var j := stem + ".json";
    NotEndsWith(j, ".gz", 2);
    NotEndsWith(j, ".ndjson", 2);
    NotEndsWith(j, ".ndjson.gz", 9);
  }

  /** "x.json.gz" is decompressed, then parsed as one document. */
  lemma JsonGzFormat(stem: string)
    ensures DetectFormat(stem + ".json.gz") == InputFormat(true, false)
  {
    var jg := stem + ".json.gz";
    assert EndsWith(jg, ".gz") by {
      assert jg[|jg| - 3 ..] == ".gz";
    }
    assert !EndsWith(jg, ".ndjson") by {
      assert jg[|jg| - 1] == 'z';
      NotEndsWith(jg, ".ndjson", 6);
    }
    assert !EndsWith(jg, ".ndjson.gz") by {
      assert jg[|jg| - 8] == '.';
      NotEndsWith(jg, ".ndjson.gz", 2);
    }
  }

  /** A gzip-compressed NDJSON name takes both paths. */
  lemma NdjsonGzTakesBothPaths(path: string)
    requires EndsWith(path, ".ndjson.gz")
    ensures DetectFormat(path) == InputFormat(true, true)
  {
    EndsWithMeansAppended(".ndjson", ".gz");
    assert ".ndjson" + ".gz" == ".ndjson.gz";
    EndsWithTransitive(path, ".ndjson.gz", ".gz");
  }

  // ---------------------------------------------------------------------------
  // Decimal text for the messages
  // ---------------------------------------------------------------------------

  function Digit(d: nat): (c: char)
    requires d < 10
    ensures '0' <= c <= '9'
  {
    "0123456789"[d]
  }

  /** The decimal numeral of `n`, as std::to_string writes it. */
  function DecimalString(n: nat): (s: string)
    ensures |s| >= 1
    ensures forall k :: 0 <= k < |s| ==> '0' <= s[k] <= '9'
  {
    if n < 10 then [Digit(n)] else DecimalString(n / 10) + [Digit(n % 10)]
  }

  /** The number a string of decimal digits denotes. */
  function DecimalValue(s: string): nat
    requires forall k :: 0 <= k < |s| ==> '0' <= s[k] <= '9'
  {
    if s == [] then 0
    else DecimalValue(s[.. |s| - 1]) * 10 + (s[|s| - 1] as int - '0' as int)
  }

  /** Reading the numeral back gives the number: the messages carry the exact count. */
  lemma {:induction false} DecimalRoundTrip(n: nat)
    ensures DecimalValue(DecimalString(n)) == n
  {
    if n >= 10 {
      DecimalRoundTrip(n / 10);
      var s := DecimalString(n);
      assert n == (n / 10) * 10 + n % 10;
      assert s[.. |s| - 1] == DecimalString(n / 10);
      assert s[|s| - 1] == Digit(n % 10);
    }
  }

  function ProgressMessage(count: nat): string
  {
    "Processed " + DecimalString(count) + " documents..."
  }

  // ---------------------------------------------------------------------------
  // The document stream
  // ---------------------------------------------------------------------------

  /** How many documents the stream yields successfully before its first failure. */
  function LeadingSuccesses(outcomes: seq<bool>): (n: nat)
    ensures n <= |outcomes|
    ensures forall j :: 0 <= j < n ==> outcomes[j]
    ensures n < |outcomes| ==> !outcomes[n]
  {
    if outcomes == [] || !outcomes[0] then 0 else 1 + LeadingSuccesses(outcomes[1..])
  }

  /** A stream whose document `k` is the first to fail has indexed exactly `k` documents, whatever follows. */
  lemma {:induction false} FirstFailureBounds(ok: seq<bool>, rest: seq<bool>)
    requires forall j :: 0 <= j < |ok| ==> ok[j]
    ensures LeadingSuccesses(ok + [false] + rest) == |ok|
  {
    if ok != [] {
      assert (ok + [false] + rest)[1..] == ok[1..] + [false] + rest;
      FirstFailureBounds(ok[1..], rest);
    }
  }

  /** The three facts LeadingSuccesses promises pin it down. */
  lemma LeadingSuccessesUnique(outcomes: seq<bool>, k: nat)
    requires k <= |outcomes| && forall j :: 0 <= j < k ==> outcomes[j]
    requires k < |outcomes| ==> !outcomes[k]
    ensures LeadingSuccesses(outcomes) == k
  {
  }

  /**
    The progress message after `count` documents: the message of the latest
    count that was a multiple of PROGRESS_INTERVAL, or `before` if none was.
  */
  function LastProgress(count: nat, before: string): string
  {
    if count == 0 then before
    else if count % PROGRESS_INTERVAL == 0 then ProgressMessage(count)
    else LastProgress(count - 1, before)
  }

  /** The message left after `count` documents names the last multiple of the interval reached. */
  lemma {:induction false} LastProgressIsLastMultiple(count: nat, before: string)
    ensures LastProgress(count, before) ==
      if count >= PROGRESS_INTERVAL then ProgressMessage(count - count % PROGRESS_INTERVAL) else before
  {
    if count > 0 && count % PROGRESS_INTERVAL != 0 {
      LastProgressIsLastMultiple(count - 1, before);
      var q, r := count / PROGRESS_INTERVAL, count % PROGRESS_INTERVAL;
      assert count == q * PROGRESS_INTERVAL + r && 0 < r;
      assert (count - 1) / PROGRESS_INTERVAL == q && (count - 1) % PROGRESS_INTERVAL == r - 1;
      assert count >= PROGRESS_INTERVAL <==> q >= 1;
    }
  }

  /**
    Walks the stream: counts successes, publishes the count after each one,
    reports progress at every multiple of PROGRESS_INTERVAL, and stops at the
    first failing document with an error naming how many came before it.
  */
  method CountDocuments(state: LoadingState, outcomes: seq<bool>) returns (docCount: nat)
    modifies state`documentsLoaded, state`errorMessage, state`statusMessage
    ensures docCount == LeadingSuccesses(outcomes)
    ensures state.documentsLoaded == if docCount == 0 then old(state.documentsLoaded) else docCount
    ensures state.errorMessage ==
      if docCount < |outcomes| then "Error at document " + DecimalString(docCount)
      else old(state.errorMessage)
    ensures state.statusMessage == LastProgress(docCount, old(state.statusMessage))
  {
    ghost var before := state.statusMessage;
    docCount := 0;
    while docCount < |outcomes|
      invariant docCount <= |outcomes|
      invariant forall j :: 0 <= j < docCount ==> outcomes[j]
      invariant state.documentsLoaded == if docCount == 0 then old(state.documentsLoaded) else docCount
      invariant state.errorMessage == old(state.errorMessage)
      invariant state.statusMessage == LastProgress(docCount, before)
    {
      if !outcomes[docCount] {
        state.errorMessage := "Error at document " + DecimalString(docCount);
        LeadingSuccessesUnique(outcomes, docCount);
        return;
      }
      docCount := docCount + 1;
      state.documentsLoaded := docCount;
      if docCount % PROGRESS_INTERVAL == 0 {
        state.statusMessage := ProgressMessage(docCount);
      }
    }
    LeadingSuccessesUnique(outcomes, docCount);
  }

  // ---------------------------------------------------------------------------
  // One ingestion attempt
  // ---------------------------------------------------------------------------

  /** What `decompress_gzip` achieves: the file does not open, or it inflates to `size` bytes. */
  datatype GzipOutcome = OpenFailed | Inflated(size: nat)

  /** What the foreign code reports for one attempt. */
  datatype Foreign = Foreign(
    gzip: GzipOutcome,        // decompression, used for ".gz" names
    plainLoad: Option<nat>,   // size of the loaded file, or None when loading fails
    sizeText: string,         // the human-readable size (floating point in the original)
    streamOk: bool,           // whether the NDJSON document stream could be created
    documents: seq<bool>,     // success of each document the stream yields, in order
    allocOk: bool,            // whether the single-document parser has (or gets) enough capacity
    parseOk: bool)            // whether the single document parses

  /** The size of the buffer the attempt obtains, or None when it aborts at loading. */
  function LoadedSize(path: string, env: Foreign): (r: Option<nat>)
    ensures EndsWith(path, ".gz") && r.Some? ==> r.value > 0
    ensures !EndsWith(path, ".gz") ==> r == env.plainLoad
  {
    if EndsWith(path, ".gz") then
      match env.gzip
      case OpenFailed => None
      case Inflated(n) => if n == 0 then None else Some(n)
    else env.plainLoad
  }

  /** The decompression step: its status message, its error on open failure, the inflated size. */
  method DecompressGzip(state: LoadingState, outcome: GzipOutcome) returns (size: nat)
    modifies state`statusMessage, state`errorMessage
    ensures state.statusMessage == "Decompressing gzip file..."
    ensures outcome.OpenFailed? ==> size == 0 && state.errorMessage == "Error opening gzip file"
    ensures outcome.Inflated? ==> size == outcome.size && state.errorMessage == old(state.errorMessage)
  {
    state.statusMessage := "Decompressing gzip file...";
    match outcome
    case OpenFailed =>
      state.errorMessage := "Error opening gzip file";
      size := 0;
    case Inflated(n) =>
      size := n;
  }

  /** The NDJSON branch once the buffer is loaded: it ends complete even after a failing document. */
  method StreamNdjson(state: LoadingState, env: Foreign)
    modifies state
    requires state.documentsLoaded == 0 && state.errorMessage == "" && !state.isComplete
    ensures !state.isLoading
    ensures state.fileSizeBytes == old(state.fileSizeBytes)
    ensures state.isComplete == env.streamOk
    ensures !env.streamOk ==> state.errorMessage == "Error creating stream" && state.documentsLoaded == 0
    ensures env.streamOk ==>
      var k := LeadingSuccesses(env.documents);
      && state.documentsLoaded == k
      && state.errorMessage == (if k < |env.documents| then "Error at document " + DecimalString(k) else "")
      && state.statusMessage == "Complete! Total: " + DecimalString(k) + " documents"
  {
    state.statusMessage := "NDJSON detected, streaming...";
    if !env.streamOk {
      state.errorMessage := "Error creating stream";
      state.isLoading := false;
      return;
    }
    var docCount := CountDocuments(state, env.documents);
    state.statusMessage := "Complete! Total: " + DecimalString(docCount) + " documents";
    state.isLoading := false;
    state.isComplete := true;
  }

  /** The single-document branch once the buffer is loaded. */
  method ParseSingle(state: LoadingState, env: Foreign)
    modifies state
    requires state.documentsLoaded == 0 && state.errorMessage == "" && !state.isComplete
    ensures !state.isLoading
    ensures state.fileSizeBytes == old(state.fileSizeBytes)
    ensures state.isComplete == (env.allocOk && env.parseOk)
    ensures !env.allocOk ==> state.errorMessage == "Error allocating parser" && state.documentsLoaded == 0
    ensures env.allocOk && !env.parseOk ==> state.errorMessage == "Error parsing JSON" && state.documentsLoaded == 0
    ensures env.allocOk && env.parseOk ==>
      state.errorMessage == "" && state.documentsLoaded == 1 && state.statusMessage == "Parsed successfully"
  {
    if !env.allocOk {
      state.errorMessage := "Error allocating parser";
      state.isLoading := false;
      return;
    }
    if !env.parseOk {
      state.errorMessage := "Error parsing JSON";
      state.isLoading := false;
      return;
    }
    state.documentsLoaded := 1;
    state.statusMessage := "Parsed successfully";
    state.isLoading := false;
    state.isComplete := true;
  }

  /**
    Obtains the buffer: decompressed for ".gz" names, loaded as it is
    otherwise. A failure, or an empty decompressed result, clears
    `isLoading` and ends the attempt.
  */
  method LoadBuffer(state: LoadingState, path: string, env: Foreign) returns (size: nat, loaded: bool)
    modifies state`statusMessage, state`errorMessage, state`isLoading
    ensures loaded == LoadedSize(path, env).Some?
    ensures loaded ==> size == LoadedSize(path, env).value && state.errorMessage == old(state.errorMessage)
    ensures loaded ==> state.isLoading == old(state.isLoading)
    ensures !loaded ==> !state.isLoading
    ensures EndsWith(path, ".gz") && env.gzip.OpenFailed? ==> state.errorMessage == "Error opening gzip file"
    ensures EndsWith(path, ".gz") && env.gzip == Inflated(0) ==> state.errorMessage == old(state.errorMessage)
    ensures !EndsWith(path, ".gz") && env.plainLoad.None? ==> state.errorMessage == "Error loading file"
  {
    loaded := true;
    if EndsWith(path, ".gz") {
      size := DecompressGzip(state, env.gzip);
      if size == 0 {
        state.isLoading := false;
        loaded := false;
      }
    } else {
      if env.plainLoad.None? {
        state.errorMessage := "Error loading file";
        state.isLoading := false;
        size, loaded := 0, false;
      } else {
        size := env.plainLoad.value;
      }
    }
  }

  /**
    One ingestion attempt. It always starts from a reset record and always
    ends with `isLoading` false; `isComplete` is set exactly when the buffer
    was obtained and the selected mode got going.
  */
  method Ingest(state: LoadingState, path: string, env: Foreign)
    modifies state
    ensures !state.isLoading
    ensures state.isComplete <==>
      LoadedSize(path, env).Some? &&
      (if DetectFormat(path).ndjson then env.streamOk else env.allocOk && env.parseOk)
    // Aborts while loading: nothing counted, no size recorded.
    ensures LoadedSize(path, env).None? ==> state.documentsLoaded == 0 && state.fileSizeBytes == 0
    ensures EndsWith(path, ".gz") && env.gzip.OpenFailed? ==> state.errorMessage == "Error opening gzip file"
    ensures EndsWith(path, ".gz") && env.gzip == Inflated(0) ==> state.errorMessage == ""
    ensures !EndsWith(path, ".gz") && env.plainLoad.None? ==> state.errorMessage == "Error loading file"
    // The buffer was obtained: the chosen branch decides the rest.
    ensures LoadedSize(path, env).Some? ==> state.fileSizeBytes == LoadedSize(path, env).value
    ensures LoadedSize(path, env).Some? && DetectFormat(path).ndjson && !env.streamOk ==>
      state.errorMessage == "Error creating stream" && state.documentsLoaded == 0
    ensures LoadedSize(path, env).Some? && DetectFormat(path).ndjson && env.streamOk ==>
      var k := LeadingSuccesses(env.documents);
      && state.documentsLoaded == k
      && state.errorMessage == (if k < |env.documents| then "Error at document " + DecimalString(k) else "")
      && state.statusMessage == "Complete! Total: " + DecimalString(k) + " documents"
    ensures LoadedSize(path, env).Some? && !DetectFormat(path).ndjson ==>
      && (!env.allocOk ==> state.errorMessage == "Error allocating parser" && state.documentsLoaded == 0)
      && (env.allocOk && !env.parseOk ==> state.errorMessage == "Error parsing JSON" && state.documentsLoaded == 0)
      && (env.allocOk && env.parseOk ==>
            state.errorMessage == "" && state.documentsLoaded == 1
            && state.statusMessage == "Parsed successfully")
  {
    state.Reset();
    state.isLoading := true;
    state.statusMessage := "Loading file...";

    var size, loaded := LoadBuffer(state, path, env);
    if !loaded {
      assert LoadedSize(path, env).None?;
      return;
    }
    assert LoadedSize(path, env) == Some(size);

    state.fileSizeBytes := size;
    state.statusMessage := "File loaded: " + env.sizeText;

    if EndsWith(path, ".ndjson") || EndsWith(path, ".ndjson.gz") {
      assert DetectFormat(path).ndjson;
      StreamNdjson(state, env);
    } else {
      assert !DetectFormat(path).ndjson;
      ParseSingle(state, env);
    }
  }
}
