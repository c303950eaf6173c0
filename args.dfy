/**
 * The command-line argument of the tool (Program.cs, tryParseArg and the
 * start-up code that calls it): the literal "f" selects the
 * find-all-references mode; anything else must be a non-negative Int32
 * that int.TryParse accepts, naming a pull request or a build.
 */
module Args {
  import opened Wrappers
  import opened Text

  const Int32Min: int := -0x8000_0000
  const Int32Max: int := 0x7FFF_FFFF

  /** Characters int.TryParse skips before and after the number (NumberStyles.Integer): U+0009..U+000D and U+0020. */
  predicate IsNumberWhite(c: char) { '\t' <= c <= '\r' || c == ' ' }

  function TrimStart(s: string): (r: string)
    ensures |r| <= |s| && r == s[|s| - |r|..]
    ensures r == [] || !IsNumberWhite(r[0])
    ensures forall k :: 0 <= k < |s| - |r| ==> IsNumberWhite(s[k])
  {
    if s != [] && IsNumberWhite(s[0]) then TrimStart(s[1..]) else s
  }

  function TrimEnd(s: string): (r: string)
    ensures |r| <= |s| && r == s[..|r|]
    ensures r == [] || !IsNumberWhite(r[|r| - 1])
    ensures forall k :: |r| <= k < |s| ==> IsNumberWhite(s[k])
  {
    if s != [] && IsNumberWhite(s[|s| - 1]) then TrimEnd(s[..|s| - 1]) else s
  }

  /** The digits of a number after its optional sign: they must be ASCII digits, at least one, and the value must fit an Int32. */
  function SignedValue(negative: bool, digits: string): Option<int>
  {
    if digits != [] && AllDigits(digits) then
      var v: int := if negative then 0 - DecimalValue(digits) else DecimalValue(digits);
      if Int32Min <= v <= Int32Max then Some(v) else None
    else None
  }

  /** int.TryParse(s, out n) with NumberStyles.Integer: [white][+|-]digits[white], Int32 range; None where TryParse returns false. */
  function ParseInt32(s: string): (r: Option<int>)
    ensures r.Some? ==> Int32Min <= r.value <= Int32Max
  {
    ParseTrimmed(TrimEnd(TrimStart(s)))
  }

  /** The optional sign and the digits, once the surrounding white space is gone. */
  function ParseTrimmed(t: string): Option<int>
  {
    if t != [] && (t[0] == '+' || t[0] == '-') then SignedValue(t[0] == '-', t[1..])
    else SignedValue(false, t)
  }

  /** Int32 formatted in decimal with a leading '-' when negative. */
  function FormatInt32(n: int): string
  {
    if n < 0 then "-" + Decimal(-n) else Decimal(n)
  }

  /** What one argument selects. */
  datatype Mode = FarToPlaylist | PullRequestOrBuild(num: nat) | Invalid

  /** The outcome of tryParseArg on one argument. */
  function ClassifyArg(arg: string): (r: Mode)
    ensures r == FarToPlaylist <==> arg == "f"
    ensures r.PullRequestOrBuild? ==> arg != "f" && ParseInt32(arg) == Some(r.num) && r.num <= Int32Max
    ensures r.PullRequestOrBuild? <==> arg != "f" && ParseInt32(arg).Some? && ParseInt32(arg).value >= 0
  {
    if arg == "f" then FarToPlaylist
    else match ParseInt32(arg)
      case Some(n) => if n >= 0 then PullRequestOrBuild(n) else Invalid
      case None => Invalid
  }

  /**
   * The start-up sequence: the single command-line argument is tried first;
   * when there is not exactly one or it is refused, the line read from the
   * console (None at end of input) is tried, and an empty line is refused.
   */
  function Startup(args: seq<string>, input: Option<string>): (r: Mode)
    ensures |args| == 1 && ClassifyArg(args[0]) != Invalid ==> r == ClassifyArg(args[0])
    ensures input.Some? && input.value != [] && ClassifyArg(input.value) != Invalid ==> r != Invalid
    ensures r != Invalid ==> (|args| == 1 && r == ClassifyArg(args[0])) || (input.Some? && r == ClassifyArg(input.value))
  {
    if |args| == 1 && ClassifyArg(args[0]) != Invalid then ClassifyArg(args[0])
    else if input.None? || input.value == [] then Invalid
    else ClassifyArg(input.value)
  }

  /** The two top-level locals that tryParseArg assigns. */
  class CommandLine {
    var num: int
    var farToPlaylist: bool

    constructor()
      ensures num == -1 && !farToPlaylist
    {
      num := -1;
      farToPlaylist := false;
    }

    /** tryParseArg: int.TryParse leaves 0 in num when it fails. */
    method TryParseArg(arg: string) returns (ok: bool)
      modifies this
      ensures ok == (ClassifyArg(arg) != Invalid)
      ensures arg == "f" ==> farToPlaylist && num == old(num)
      ensures arg != "f" ==> farToPlaylist == old(farToPlaylist)
      ensures arg != "f" ==> num == match ParseInt32(arg) case Some(n) => n case None => 0
    {
      if arg == "f" {
        farToPlaylist := true;
        return true;
      }
      var parsed := ParseInt32(arg);
      num := if parsed.Some? then parsed.value else 0;
      ok := parsed.Some? && num >= 0;
    }

    /** The argument check at start-up; false is the "Not a valid positive integer." exit with -1. */
    method ParseArguments(args: seq<string>, input: Option<string>) returns (ok: bool)
      requires !farToPlaylist
      modifies this
      ensures ok == (Startup(args, input) != Invalid)
      ensures farToPlaylist == (Startup(args, input) == FarToPlaylist)
      ensures Startup(args, input).PullRequestOrBuild? ==> num == Startup(args, input).num
    {
      ok := false;
      if |args| == 1 {
        ok := TryParseArg(args[0]);
      }
      if !ok {
        if input.None? || input.value == [] {
          return false;
        }
        ok := TryParseArg(input.value);
      }
    }
  }

  lemma {:induction false} TrimNonWhite(s: string)
    requires s != [] && !IsNumberWhite(s[0]) && !IsNumberWhite(s[|s| - 1])
    ensures ParseInt32(s) == ParseTrimmed(s)
  {
    assert TrimStart(s) == s;
    assert TrimEnd(s) == s;
  }

  /** A decimal numeral parses to its value exactly when that value fits an Int32. */
  lemma {:induction false} ParseDecimal(n: nat)
    ensures ParseInt32(Decimal(n)) == if n <= Int32Max then Some(n) else None
  {
    var d := Decimal(n);
    TrimNonWhite(d);
    assert IsDigit(d[0]);
  }

  /** A decimal numeral after '-' parses to its negation exactly when that fits an Int32. */
  lemma {:induction false} ParseNegatedDecimal(n: nat)
    ensures ParseInt32("-" + Decimal(n)) == if n <= -Int32Min then Some(-(n as int)) else None
  {
    var d := Decimal(n);
    var s := "-" + d;
    assert s[|s| - 1] == d[|d| - 1];
    TrimNonWhite(s);
    assert s[0] == '-' && s[1..] == d;
  }

  /** Every Int32 survives formatting and parsing back. */
  lemma {:induction false} ParseFormatted(n: int)
    requires Int32Min <= n <= Int32Max
    ensures ParseInt32(FormatInt32(n)) == Some(n)
  {
    if n < 0 {
      ParseNegatedDecimal(-n);
    } else {
      ParseDecimal(n);
    }
  }

  /**
   * Every formatted integer is classified by its value: negative ones are
   * refused, non-negative ones up to Int32.MaxValue are accepted as
   * themselves, and larger ones overflow and are refused.
   */
  lemma {:induction false} ClassifyNumber(n: int)
    ensures ClassifyArg(FormatInt32(n)) == if 0 <= n <= Int32Max then PullRequestOrBuild(n) else Invalid
  {
    if n < 0 {
      ParseNegatedDecimal(-n);
    } else {
      ParseDecimal(n);
    }
    assert FormatInt32(n)[0] != 'f';
  }

  /** "f" is checked before any integer parse, and only the lower-case letter selects it. */
  lemma ClassifyLetters()
    ensures ClassifyArg("f") == FarToPlaylist
    ensures ClassifyArg("F") == Invalid
    ensures ClassifyArg("") == Invalid
  {
  }

  /** "-0" parses to 0 and is accepted; "-5" parses but is refused. */
  lemma ClassifySigned()
    ensures ClassifyArg("-0") == PullRequestOrBuild(0)
    ensures ClassifyArg("-5") == Invalid
  {
    assert TrimStart("-0") == "-0" && TrimEnd("-0") == "-0";
    assert TrimStart("-5") == "-5" && TrimEnd("-5") == "-5";
  }

  /** White space around the number is skipped. */
  lemma ClassifyPadded()
    ensures ClassifyArg(" 42\t") == PullRequestOrBuild(42)
  {
    assert TrimStart(" 42\t") == "42\t";
    assert TrimEnd("42\t") == "42";
    assert "42"[..1] == "4";
    assert DecimalValue("42") == 42;
    assert ParseTrimmed("42") == Some(42);
  }
}
