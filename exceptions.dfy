/**
  The error vocabulary of the viewer (exception/SarifViewerException.kt) and
  the way the model represents a call that throws.
 */
module Exceptions {

  /** The message of UNAUTHORIZED, three lines long. */
  const UnauthorizedMessage: string :=
    "Unauthorized: \nthe token provided doesn't have the authorization to access the current repository\nor the current branch haven't been pushed"

  /** The six error values declared in SarifViewerException's companion
      object, plus INVALID_SARIF and INVALID_VIEW, which SarifService throws
      although that file does not declare them. */
  datatype SarifViewerError =
    | InvalidPat
    | Unauthorized
    | InvalidAnalysisId
    | InvalidRepository
    | InvalidBranch
    | InvalidAnalysis
    | InvalidSarif
    | InvalidView
  {
    /** Whether the value is one of the six with a declared code and message. */
    predicate Declared() {
      !InvalidSarif? && !InvalidView?
    }

    /** The numeric code passed to the constructor. */
    function Code(): (c: int)
      requires Declared()
      ensures 1 <= c <= 6
    {
      match this
      case InvalidPat => 1
      case Unauthorized => 2
      case InvalidAnalysisId => 3
      case InvalidRepository => 4
      case InvalidBranch => 5
      case InvalidAnalysis => 6
    }

    /** The `message` property, which is the constructor's message string. */
    function Message(): (m: string)
      requires Declared()
    {
      match this
      case InvalidPat => "Invalid GitHub PAT"
      case Unauthorized => UnauthorizedMessage
      case InvalidAnalysisId => "Invalid analysis ID"
      case InvalidRepository => "Invalid repository or no analyses available"
      case InvalidBranch => "Invalid branch"
      case InvalidAnalysis => "Invalid analysis"
    }
  }

  /** The declared error for a code, the inverse of Code. */
  function FromCode(code: int): (e: SarifViewerError)
    requires 1 <= code <= 6
    ensures e.Declared() && e.Code() == code
  {
    if code == 1 then InvalidPat
    else if code == 2 then Unauthorized
    else if code == 3 then InvalidAnalysisId
    else if code == 4 then InvalidRepository
    else if code == 5 then InvalidBranch
    else InvalidAnalysis
  }

  /** Codes identify declared errors: FromCode inverts Code, so no two
      declared errors share a code. */
  lemma CodeRoundTrip(e: SarifViewerError)
    requires e.Declared()
    ensures FromCode(e.Code()) == e
  {
  }

  /** No two declared errors share a message. */
  lemma MessagesDistinct(a: SarifViewerError, b: SarifViewerError)
    requires a.Declared() && b.Declared() && a != b
    ensures a.Message() != b.Message()
  {
    // the six messages have six different lengths
    MessageHasLength(a);
    MessageHasLength(b);
  }

  /** The length of each declared message. */
  function MessageLength(e: SarifViewerError): nat
    requires e.Declared()
  {
    match e
    case InvalidPat => 18
    case Unauthorized => 139
    case InvalidAnalysisId => 19
    case InvalidRepository => 43
    case InvalidBranch => 14
    case InvalidAnalysis => 16
  }

  lemma MessageHasLength(e: SarifViewerError)
    requires e.Declared()
    ensures |e.Message()| == MessageLength(e)
  {
    match e
    case InvalidPat =>
    case Unauthorized =>
    case InvalidAnalysisId =>
    case InvalidRepository =>
    case InvalidBranch =>
    case InvalidAnalysis =>
  }

  /** What escapes from a call that throws: one of the viewer's own errors,
      or any other exception (index out of bounds, null dereference, an I/O
      error), which the model does not tell apart. */
  datatype Failure = Raised(error: SarifViewerError) | RuntimeFailure

  /** The outcome of a call that may throw. */
  datatype Outcome<+T> = Ok(value: T) | Err(failure: Failure)
}
