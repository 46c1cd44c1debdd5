/**
 * The crate's error type `DumpBinError`, its conversions and its
 * `Display` and `std::error::Error` behaviour.
 */
module Errors {
  import opened Wrappers
  import opened Decimal

  /** A `std::io::Error`, known only by its (foreign) `Display` rendering. */
  datatype IoError = IoError(rendering: string)

  /** A `forensic_rs::prelude::ForensicError`, known only by its (foreign) `{:?}` rendering. */
  datatype ForensicError = ForensicError(debugRendering: string)

  datatype DumpBinError =
    | Io(io: IoError)
    | DumpBinError(exitCode: i32, stderr: string)
    | Other(message: string)

  /** `impl From<String> for DumpBinError`. */
  function FromString(s: string): (e: DumpBinError)
    ensures e.Other? && Display(e) == s
  {
    Other(s)
  }

  /** `impl From<ForensicError> for DumpBinError`: the error's debug rendering, as `Other`. */
  function FromForensic(err: ForensicError): (e: DumpBinError)
    ensures e.Other? && Display(e) == err.debugRendering
  {
    Other(err.debugRendering)
  }

  const IoPrefix: string := "I/O error: "
  const ExitPrefix: string := "SignTool exited with code "

  /** `impl Display for DumpBinError`. */
  function Display(e: DumpBinError): string
  {
    match e
    case Io(io) => IoPrefix + io.rendering
    case DumpBinError(code, stderr) => ExitPrefix + IntToDecimal(code as int) + ": " + stderr
    case Other(message) => message
  }

  /** `Error::source`: no variant exposes an underlying error. */
  function Source(e: DumpBinError): Option<DumpBinError>
  {
    None
  }

  /** `Error::cause`, which defers to `source`. */
  function Cause(e: DumpBinError): Option<DumpBinError>
  {
    Source(e)
  }

  const DescriptionText: string := "DumpbinError: dont use description"

  /** `Error::description`, a fixed text whatever the variant. */
  function Description(e: DumpBinError): string
  {
    DescriptionText
  }

  /**
   * The `std::error::Error` methods, for every pair of variants: no error
   * has a source or a cause, and every error describes itself the same way.
   */
  lemma ErrorTraitMethods(e: DumpBinError, e2: DumpBinError)
    ensures Source(e) == None && Cause(e) == Source(e)
    ensures Description(e) == Description(e2) == DescriptionText
  {
  }

  /** The I/O variant shows the foreign rendering after a fixed prefix. */
  lemma DisplayIo(io: IoError)
    ensures Display(Io(io)) == IoPrefix + io.rendering
    ensures Display(Io(io))[|IoPrefix|..] == io.rendering
  {
  }

  /** `IntToDecimal` is a `-` or a digit, followed by digits only. */
  lemma IntToDecimalShape(i: int)
    ensures IntToDecimal(i) != []
    ensures IntToDecimal(i)[0] == '-' || IsDigit(IntToDecimal(i)[0])
    ensures forall k :: 1 <= k < |IntToDecimal(i)| ==> IsDigit(IntToDecimal(i)[k])
  {
    NatToDecimalDigits(if i < 0 then -i else i);
  }

  /** A number's text followed by `": "` can be cut back apart at the colon. */
  lemma {:induction false} CutAtColon(d1: string, e1: string, d2: string, e2: string)
    requires d1 != [] && d2 != []
    requires forall k :: 1 <= k < |d1| ==> IsDigit(d1[k])
    requires forall k :: 1 <= k < |d2| ==> IsDigit(d2[k])
    requires d1 + ": " + e1 == d2 + ": " + e2
    ensures d1 == d2 && e1 == e2
  {
    var t := d1 + ": " + e1;
    assert t[|d1|] == ':' && t[|d2|] == ':';
    assert forall k :: 1 <= k < |d1| ==> t[k] == d1[k] && t[k] != ':';
    assert forall k :: 1 <= k < |d2| ==> t[k] == d2[k] && t[k] != ':';
    assert d1 == t[..|d1|] && d2 == t[..|d2|];
    assert e1 == t[|d1| + 2..] && e2 == t[|d2| + 2..];
  }

  /**
   * The exit-status message determines both the exit code and the captured
   * standard error: the code's digits end at the first `:`.
   */
  lemma DisplayExitInjective(c1: i32, e1: string, c2: i32, e2: string)
    requires Display(DumpBinError(c1, e1)) == Display(DumpBinError(c2, e2))
    ensures c1 == c2 && e1 == e2
  {
    var d1, d2 := IntToDecimal(c1 as int), IntToDecimal(c2 as int);
    var t1, t2 := d1 + ": " + e1, d2 + ": " + e2;
    assert ExitPrefix + t1 == Display(DumpBinError(c1, e1));
    assert ExitPrefix + t2 == Display(DumpBinError(c2, e2));
    assert t1 == (ExitPrefix + t1)[|ExitPrefix|..];
    assert t2 == (ExitPrefix + t2)[|ExitPrefix|..];
    IntToDecimalShape(c1 as int);
    IntToDecimalShape(c2 as int);
    CutAtColon(d1, e1, d2, e2);
    IntToDecimalInjective(c1 as int, c2 as int);
  }
}
