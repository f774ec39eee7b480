/** The failure tagger: a pytest transcript mapped to one of six failure
    tags by a first-match-wins chain of substring tests. */
module Tagging {
  import opened PyStr

  datatype FailureType = ImportError | AssertionFailure | Exception | Timeout | CollectionError | Unknown

  /** The string the pipeline stores for each tag. */
  function TagName(t: FailureType): (s: string) {
    match t
    case ImportError => "import_error"
    case AssertionFailure => "assertion_failure"
    case Exception => "exception"
    case Timeout => "timeout"
    case CollectionError => "collection_error"
    case Unknown => "unknown"
  }

  lemma TagNameInjective(s: FailureType, t: FailureType)
    requires TagName(s) == TagName(t)
    ensures s == t
  {
  }

  // The markers. The import, exception markers are case-sensitive (apart
  // from "import error"); the rest are checked on the lowered transcript.

  predicate HasImportMarker(log: string) {
    Contains(log, "ImportError") || Contains(log, "ModuleNotFoundError") || Contains(Lower(log), "import error")
  }

  predicate HasAssertionMarker(log: string) {
    var low := Lower(log);
    Contains(low, "assert") && (Contains(low, "failed") || Contains(low, "assertion"))
  }

  predicate HasExceptionMarker(log: string) {
    Contains(log, "E   ") || Contains(log, "Traceback (most recent call last)")
  }

  predicate HasTimeoutMarker(log: string) {
    Contains(Lower(log), "timeout")
  }

  predicate HasCollectionMarker(log: string) {
    var low := Lower(log);
    Contains(low, "errors during collection") || Contains(low, "collected 0 items")
  }

  /** The test that selects tag `t`; `Unknown` needs nothing. */
  predicate Matches(t: FailureType, log: string) {
    match t
    case ImportError => HasImportMarker(log)
    case AssertionFailure => HasAssertionMarker(log)
    case Exception => HasExceptionMarker(log)
    case Timeout => HasTimeoutMarker(log)
    case CollectionError => HasCollectionMarker(log)
    case Unknown => true
  }

  /** Position of each tag's test in the chain. */
  function Rank(t: FailureType): nat {
    match t
    case ImportError => 0
    case AssertionFailure => 1
    case Exception => 2
    case Timeout => 3
    case CollectionError => 4
    case Unknown => 5
  }

  /** `tag_failure`: the earliest tag in the chain whose test the transcript passes. */
  function TagFailure(log: string): (r: FailureType)
    ensures Matches(r, log)
    ensures forall t :: Rank(t) < Rank(r) ==> !Matches(t, log)
  {
    var low := Lower(log);
    if Contains(log, "ImportError") || Contains(log, "ModuleNotFoundError") || Contains(low, "import error") then
      ImportError
    else if Contains(low, "assert") && (Contains(low, "failed") || Contains(low, "assertion")) then
      AssertionFailure
    else if Contains(log, "E   ") || Contains(log, "Traceback (most recent call last)") then
      Exception
    else if Contains(low, "timeout") then
      Timeout
    else if Contains(low, "errors during collection") || Contains(low, "collected 0 items") then
      CollectionError
    else
      Unknown
  }

  /** An import marker decides the tag whatever else the transcript holds
      before or after it. */
  lemma ImportMarkerDominates(log: string, before: string, after: string)
    requires HasImportMarker(log)
    ensures TagFailure(before + log + after) == ImportError
  {
    if Contains(log, "ImportError") {
      ContainsInside(before, log, after, "ImportError");
    } else if Contains(log, "ModuleNotFoundError") {
      ContainsInside(before, log, after, "ModuleNotFoundError");
    } else {
      LowerConcat(before, log);
      LowerConcat(before + log, after);
      ContainsInside(Lower(before), Lower(log), Lower(after), "import error");
    }
  }

  /** `assertion_failure` exactly when there is no import marker and the
      lowered transcript holds "assert" together with "failed" or "assertion". */
  lemma AssertionFailureExactly(log: string)
    ensures TagFailure(log) == AssertionFailure <==> !HasImportMarker(log) && HasAssertionMarker(log)
  {
  }

  /** `exception` needs a case-sensitive exception marker and outranks `timeout`. */
  lemma ExceptionBeforeTimeout(log: string)
    ensures TagFailure(log) == Exception <==>
      !HasImportMarker(log) && !HasAssertionMarker(log) && HasExceptionMarker(log)
    ensures TagFailure(log) == Timeout ==> !HasExceptionMarker(log)
  {
  }

  /** `collection_error` only when every earlier test failed. */
  lemma CollectionErrorIsLast(log: string)
    ensures TagFailure(log) == CollectionError <==>
      !HasImportMarker(log) && !HasAssertionMarker(log) && !HasExceptionMarker(log)
      && !HasTimeoutMarker(log) && HasCollectionMarker(log)
  {
  }

  /** `unknown` exactly when no marker at all is present; the empty log is one such. */
  lemma UnknownExactly(log: string)
    ensures TagFailure(log) == Unknown <==> forall t :: t != Unknown ==> !Matches(t, log)
    ensures TagFailure("") == Unknown
  {
    if TagFailure(log) != Unknown {
      assert Matches(TagFailure(log), log);
    }
    assert !Contains("", "ImportError");
  }
}
