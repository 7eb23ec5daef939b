/**
 The upload-and-analyse hook: up to three attempts with exponential back-off,
 the visible `retryCount` and the mapping of the last error code to a
 user-facing message. Each attempt's network outcome is a parameter; the
 waits are recorded rather than slept.
 */
module FileAnalysis {
  import opened Text

  const MaxRetries: nat := 3
  const InitialDelay: nat := 1000

  function Pow2(k: nat): (r: nat)
    ensures r >= 1
  {
    if k == 0 then 1 else 2 * Pow2(k - 1)
  }

  /** `INITIAL_DELAY * Math.pow(2, attempt)` */
  function Delay(attempt: nat): (r: nat)
    ensures attempt == 0 ==> r == InitialDelay
    ensures r == InitialDelay * Pow2(attempt)
  {
    InitialDelay * Pow2(attempt)
  }

  /** Each wait is twice the one before. */
  lemma DelayDoubles(attempt: nat)
    ensures Delay(attempt + 1) == 2 * Delay(attempt)
  {
  }

  /** The waits after the first `n` failed attempts. */
  function Delays(n: nat): (r: seq<nat>)
    ensures |r| == n && forall j :: 0 <= j < n ==> r[j] == Delay(j)
  {
    seq(n, j requires 0 <= j < n => Delay(j))
  }

  // The messages of `getErrorMessage`, French as in the interface.
  const UploadFailedText: string := "\U{00C9}chec de l'upload du fichier. V\U{00E9}rifiez votre connexion."
  const KeyMissingText: string := "Cl\U{00E9} API non configur\U{00E9}e. Contactez l'administrateur."
  const NotFoundText: string := "Fichier introuvable dans le stockage."
  const AnalysisFailedText: string := "L'analyse IA a \U{00E9}chou\U{00E9}. R\U{00E9}essayez ou ajoutez des tags manuellement."
  const RateLimitedText: string := "Trop de requ\U{00EA}tes. Attendez quelques instants."
  const UnknownText: string := "Une erreur inattendue s'est produite. Veuillez r\U{00E9}essayer."

  /** The `messages` record as (code, message) pairs. */
  const Messages: seq<(string, string)> := [
    ("UPLOAD_FAILED", UploadFailedText),
    ("AI_GATEWAY_API_KEY_MISSING", KeyMissingText),
    ("FILE_NOT_FOUND", NotFoundText),
    ("AI_ANALYSIS_FAILED", AnalysisFailedText),
    ("RATE_LIMITED", RateLimitedText),
    ("UNKNOWN_ERROR", UnknownText)
  ]

  /** The value of the first pair whose key is `code`, if any. */
  function LookupPair(pairs: seq<(string, string)>, code: string): (r: Option<string>)
    ensures r.Some? <==> exists k :: 0 <= k < |pairs| && pairs[k].0 == code
    ensures r.Some? ==> (code, r.value) in pairs
  {
    if |pairs| == 0 then None
    else if pairs[0].0 == code then Some(pairs[0].1)
    else
      var rest := LookupPair(pairs[1..], code);
      assert forall k :: 1 <= k < |pairs| ==> pairs[k] == pairs[1..][k - 1];
      rest
  }

  /** The record's own property `code`, if it has one. */
  function OwnMessage(code: string): (r: Option<string>)
    ensures r.Some? <==> exists k :: 0 <= k < |Messages| && Messages[k].0 == code
    ensures r.Some? ==> (code, r.value) in Messages
  {
    LookupPair(Messages, code)
  }

  /** "UPLOAD_FAILED" is one of the record's own keys, with its own message. */
  lemma UploadFailedIsOwn()
    ensures OwnMessage("UPLOAD_FAILED") == Some(UploadFailedText)
  {
  }

  /** The message for an error code: the known codes map to their own message,
      every other string to the unknown-error message. */
  function GetErrorMessage(code: string): (r: string)
    ensures exists k :: 0 <= k < |Messages| && Messages[k].1 == r
    ensures OwnMessage(code).Some? ==> r == OwnMessage(code).value
    ensures OwnMessage(code).None? ==> r == UnknownText
  {
    assert Messages[5].1 == UnknownText;
    var own := OwnMessage(code);
    if own.Some? then own.value else UnknownText
  }

  /** The members every object literal inherits from `Object.prototype`; each
      of them is truthy (a function, or the prototype object for `__proto__`). */
  const InheritedNames: set<string> := {
    "constructor", "toString", "toLocaleString", "valueOf", "hasOwnProperty",
    "isPrototypeOf", "propertyIsEnumerable", "__proto__", "__defineGetter__",
    "__defineSetter__", "__lookupGetter__", "__lookupSetter__"
  }

  /** What `messages[code] || messages.UNKNOWN_ERROR` evaluates to. */
  datatype Lookup = Message(text: string) | InheritedMember(name: string)

  /** `getErrorMessage` as written: the index expression also finds inherited
      members, which are truthy, so the fallback is skipped for them. */
  function GetErrorMessageAsWritten(code: string): (r: Lookup)
    ensures OwnMessage(code).Some? ==> r == Message(OwnMessage(code).value)
    ensures OwnMessage(code).None? && code !in InheritedNames ==> r == Message(UnknownText)
    ensures OwnMessage(code).None? && code in InheritedNames ==> r == InheritedMember(code)
  {
    var own := OwnMessage(code);
    if own.Some? then Message(own.value)
    else if code in InheritedNames then InheritedMember(code)
    else Message(UnknownText)
  }

  /** An error whose message is "toString" gets a function, not a message. */
  lemma InheritedCodeEscapesFallback()
    ensures GetErrorMessageAsWritten("toString") == InheritedMember("toString")
    ensures GetErrorMessage("toString") == UnknownText
  {
    assert "toString" in InheritedNames;
  }

  /** Off the inherited names, the corrected lookup agrees with the code as written. */
  lemma CorrectedAgreesElsewhere(code: string)
    requires code !in InheritedNames
    ensures GetErrorMessageAsWritten(code) == Message(GetErrorMessage(code))
  {
  }

  /** How one attempt ends: the upload response is not OK, some call throws
      (with the message of the `Error`, or `String(err)`), or both the upload
      and the analysis succeed. */
  datatype Attempt =
    | UploadNotOk
    | Threw(message: string)
    | Succeeded(storageId: string, existingTags: seq<string>, newTags: seq<string>, suggestedName: Option<string>)

  datatype AnalysisResult = AnalysisResult(storageId: string, existingTags: seq<string>, newTags: seq<string>, suggestedName: Option<string>)

  /** The hook's visible state. */
  datatype AnalysisState = AnalysisState(isAnalyzing: bool, error: Option<string>, retryCount: nat)

  const Idle: AnalysisState := AnalysisState(false, None, 0)

  /** `reset` */
  function Reset(s: AnalysisState): (r: AnalysisState)
    ensures !r.isAnalyzing && r.error.None? && r.retryCount == 0
  {
    Idle
  }

  /** The code an attempt's failure leaves in `lastError.message`. */
  function FailureCode(a: Attempt): string
    requires !a.Succeeded?
  {
    if a.UploadNotOk? then "UPLOAD_FAILED" else a.message
  }

  /** `lastError?.message || "UNKNOWN_ERROR"` */
  function ShownCode(a: Attempt): (r: string)
    requires !a.Succeeded?
    ensures r != ""
    ensures a.UploadNotOk? ==> r == "UPLOAD_FAILED"
    ensures a.Threw? ==> r == (if a.message == "" then "UNKNOWN_ERROR" else a.message)
  {
    var code := FailureCode(a);
    if code == "" then "UNKNOWN_ERROR" else code
  }

  /** 1, 2, ..., n: the `retryCount` values the attempts set in turn. */
  function Counting(n: nat): (r: seq<nat>)
    ensures |r| == n && forall j :: 0 <= j < n ==> r[j] == j + 1
  {
    seq(n, j requires 0 <= j < n => j + 1)
  }

  /** One call of `analyze`: its result, the final state, every `retryCount`
      value in order (starting with the reset to 0), and the waits. */
  datatype Run = Run(result: Option<AnalysisResult>, state: AnalysisState, retryTrace: seq<nat>, waits: seq<nat>)

  /** `analyze(file)` over the outcomes of its attempts. */
  method Analyze(outcome: nat -> Attempt) returns (r: Run)
    ensures !r.state.isAnalyzing && r.state.retryCount == 0 ==> r.result.Some?
    ensures !r.state.isAnalyzing
    ensures forall k :: 0 <= k < MaxRetries && outcome(k).Succeeded? && (forall j :: 0 <= j < k ==> !outcome(j).Succeeded?) ==>
      var a := outcome(k);
      r == Run(Some(AnalysisResult(a.storageId, a.existingTags, a.newTags, a.suggestedName)),
               AnalysisState(false, None, 0), [0] + Counting(k + 1) + [0], Delays(k))
    ensures (forall j :: 0 <= j < MaxRetries ==> !outcome(j).Succeeded?) ==>
      && r.result.None?
      && r.state == AnalysisState(false, Some(GetErrorMessage(ShownCode(outcome(MaxRetries - 1)))), MaxRetries)
      && r.retryTrace == [0, 1, 2, 3]
      && r.waits == [1000, 2000]
  {
    var trace: seq<nat> := [0];
    var waits: seq<nat> := [];
    var attempt: nat := 0;
    while attempt < MaxRetries
      invariant attempt <= MaxRetries
      invariant forall j :: 0 <= j < attempt ==> !outcome(j).Succeeded?
      invariant trace == [0] + Counting(attempt)
      invariant waits == Delays(if attempt < MaxRetries then attempt else MaxRetries - 1)
    {
      trace := trace + [attempt + 1];
      var a := outcome(attempt);
      if a.Succeeded? {
        assert trace == [0] + Counting(attempt + 1);
        r := Run(Some(AnalysisResult(a.storageId, a.existingTags, a.newTags, a.suggestedName)),
                 AnalysisState(false, None, 0), trace + [0], waits);
        return;
      }
      if attempt < MaxRetries - 1 {
        waits := waits + [Delay(attempt)];
      }
      attempt := attempt + 1;
      assert trace == [0] + Counting(attempt);
    }
    ExhaustedTraces();
    var last := outcome(MaxRetries - 1);
    r := Run(None, AnalysisState(false, Some(GetErrorMessage(ShownCode(last))), trace[|trace| - 1]), trace, waits);
  }

  /** After three failures the counter went 0, 1, 2, 3 and the waits were 1 s and 2 s. */
  lemma ExhaustedTraces()
    ensures [0] + Counting(MaxRetries) == [0, 1, 2, 3]
    ensures Delays(MaxRetries - 1) == [1000, 2000]
  {
    assert Delay(1) == 2000;
  }

  /** A failed upload on the last attempt shows the upload message. */
  lemma UploadFailureMessage()
    ensures GetErrorMessage(ShownCode(UploadNotOk)) == UploadFailedText
  {
    UploadFailedIsOwn();
  }
}
