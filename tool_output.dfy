/**
 The text the four tools hand back to the model: Python's `str()` of integers
 and booleans, the directory-listing lines, the read truncation rule, the
 report of a finished script and the fixed error messages.
 */
module ToolOutput {

  predicate IsDigit(c: char) {
    '0' <= c <= '9'
  }

  predicate AllDigits(s: string) {
    forall i :: 0 <= i < |s| ==> IsDigit(s[i])
  }

  function DigitChar(d: nat): (c: char)
    requires d < 10
    ensures IsDigit(c) && c as int - '0' as int == d
  {
    ('0' as int + d) as char
  }

  /** `str(n)` for a non-negative integer: decimal digits, no leading zero. */
  function NatToString(n: nat): (s: string)
    ensures |s| >= 1 && AllDigits(s)
    ensures |s| > 1 ==> s[0] != '0'
    decreases n
  {
    if n < 10 then [DigitChar(n)] else NatToString(n / 10) + [DigitChar(n % 10)]
  }

  /** The value of a string of decimal digits. */
  function DigitsValue(s: string): nat
    requires AllDigits(s)
  {
    if s == [] then 0 else DigitsValue(s[..|s| - 1]) * 10 + (s[|s| - 1] as int - '0' as int)
  }

  /** Reading back the decimal text of `n` gives `n`. */
  lemma {:induction false} NatToStringRoundTrip(n: nat)
    ensures DigitsValue(NatToString(n)) == n
    decreases n
  {
    if n >= 10 {
      var s := NatToString(n / 10);
      NatToStringRoundTrip(n / 10);
      assert (s + [DigitChar(n % 10)])[..|s|] == s;
    }
  }

  /** `str(i)` for any integer, as used for a process return code. */
  function IntToString(i: int): (s: string)
    ensures |s| >= 1 && (s[0] == '-' <==> i < 0)
    ensures i < 0 ==> s[1..] == NatToString(-i)
    ensures i >= 0 ==> AllDigits(s)
  {
    if i < 0 then "-" + NatToString(-i) else NatToString(i)
  }

  /** `int(s)` for the text `str` produces. */
  function ParseInt(s: string): int
    requires (|s| > 0 && s[0] == '-' && AllDigits(s[1..])) || AllDigits(s)
  {
    if |s| > 0 && s[0] == '-' then -(DigitsValue(s[1..]) as int) else DigitsValue(s)
  }

  /** Reading back the text of a return code gives the code. */
  lemma IntToStringRoundTrip(i: int)
    ensures var s := IntToString(i);
            ((|s| > 0 && s[0] == '-' && AllDigits(s[1..])) || AllDigits(s)) && ParseInt(s) == i
  {
    var s := IntToString(i);
    if i < 0 {
      assert s[0] == '-' && s[1..] == NatToString(-i);
      NatToStringRoundTrip(-i);
    } else {
      assert IsDigit(s[0]);
      NatToStringRoundTrip(i);
    }
  }

  /** Different integers print differently. */
  lemma IntToStringInjective(a: int, b: int)
    ensures IntToString(a) == IntToString(b) ==> a == b
  {
    IntToStringRoundTrip(a);
    IntToStringRoundTrip(b);
  }

  /** `str(b)` for a boolean. */
  function BoolToString(b: bool): (s: string)
    ensures b <==> s == "True"
    ensures !b <==> s == "False"
  {
    if b then "True" else "False"
  }

  // ---------------------------------------------------------------------
  // Directory listing

  /** What the listing reports of one directory entry. */
  datatype Entry = Entry(name: string, size: nat, isDir: bool)

  /** `- {name}: file_size={size} bytes, is_dir={is_dir}` and a newline. */
  function EntryLine(e: Entry): (line: string)
    ensures |line| > 0 && line[0] == '-'
  {
    "- " + e.name + ": file_size=" + NatToString(e.size) + " bytes, is_dir=" + BoolToString(e.isDir) + "\n"
  }

  /** The lines of a listing, in listing order. */
  function Listing(es: seq<Entry>): (r: string)
    ensures r == [] <==> es == []

  {
    if es == [] then [] else EntryLine(es[0]) + Listing(es[1..])
  }

  const EmptyDirectory: string := "No files found in the directory."

  /** The listing of two runs of entries is the two listings one after the other. */
  lemma {:induction false} ListingAppend(xs: seq<Entry>, ys: seq<Entry>)
    ensures Listing(xs + ys) == Listing(xs) + Listing(ys)
  {
    if xs == [] {
      assert xs + ys == ys;
    } else {
      var zs := xs + ys;
      assert zs[0] == xs[0] && zs[1..] == xs[1..] + ys;
      ListingAppend(xs[1..], ys);
      calc {
        Listing(zs);
        EntryLine(xs[0]) + Listing(xs[1..] + ys);
        EntryLine(xs[0]) + (Listing(xs[1..]) + Listing(ys));
        (EntryLine(xs[0]) + Listing(xs[1..])) + Listing(ys);
      }
    }
  }

  /** Appending an entry appends its line. */
  lemma ListingSnoc(es: seq<Entry>, e: Entry)
    ensures Listing(es + [e]) == Listing(es) + EntryLine(e)
  {
    ListingAppend(es, [e]);
    assert [e][1..] == [];
  }

  /** Entry `k` contributes exactly its own line, between the lines of the
      entries before it and those after it. */
  lemma ListingLineAt(es: seq<Entry>, k: nat)
    requires k < |es|
    ensures Listing(es) == Listing(es[..k]) + EntryLine(es[k]) + Listing(es[k + 1..])
  {
    var before, x, after := es[..k], es[k], es[k + 1..];
    SplitAt(es, k);
    ListingAppend(before + [x], after);
    ListingSnoc(before, x);
  }

  lemma SplitAt(es: seq<Entry>, k: nat)
    requires k < |es|
    ensures es == (es[..k] + [es[k]]) + es[k + 1..]
  {
  }

  /** The empty-directory sentence can never be mistaken for a listing. */
  lemma ListingIsNotEmptyMessage(es: seq<Entry>)
    ensures Listing(es) != EmptyDirectory
  {
    if es != [] {
      assert Listing(es)[0] == EntryLine(es[0])[0] == '-';
      assert EmptyDirectory[0] == 'N';
    }
  }

  // ---------------------------------------------------------------------
  // Reading

  /** Characters the read asks for (`MAX_FILE_SIZE`), one more than it keeps. */
  const ReadChars: nat := 10001
  /** Characters a read returns before the truncation marker. */
  const MaxChars: nat := 10000
  /** The marker is a plain string, so the braces appear verbatim and the
      path is not substituted. */
  const TruncationMarker: string := "[...File \"{file_path}\" truncated at 10000 characters]"

  /** What a text-mode read sees of the stored text: in universal-newlines
      mode `\r\n` and a lone `\r` each become `\n`. */
  function TranslateNewlines(s: string): (r: string)
    ensures '\r' !in r
    ensures '\r' !in s ==> r == s
    ensures |r| <= |s|
  {
    if s == [] then []
    else if s[0] == '\r' then
      if |s| > 1 && s[1] == '\n' then "\n" + TranslateNewlines(s[2..])
      else "\n" + TranslateNewlines(s[1..])
    else
      assert '\r' !in s ==> '\r' !in s[1..] by {
        if '\r' in s[1..] {
          var i :| 0 <= i < |s[1..]| && s[1..][i] == '\r';
          assert s[i + 1] == '\r';
        }
      }
      [s[0]] + TranslateNewlines(s[1..])
  }

  /** Translation works token by token: it distributes over a concatenation
      unless the cut separates the two halves of a `\r\n`. */
  lemma {:induction false} TranslateNewlinesAppend(a: string, b: string)
    requires !(a != [] && a[|a| - 1] == '\r' && b != [] && b[0] == '\n')
    ensures TranslateNewlines(a + b) == TranslateNewlines(a) + TranslateNewlines(b)
    decreases |a|
  {
    if a == [] {
      assert a + b == b;
    } else if a[0] == '\r' && |a| > 1 && a[1] == '\n' {
      assert (a + b)[2..] == a[2..] + b;
      TranslateNewlinesAppend(a[2..], b);
    } else if a[0] == '\r' && |a| == 1 {
      assert (a + b)[1..] == b;
      assert TranslateNewlines(a) == "\n" + TranslateNewlines(a[1..]);
      assert a[1..] == [];
    } else {
      assert (a + b)[1..] == a[1..] + b;
      TranslateNewlinesAppend(a[1..], b);
    }
  }

  /** The tokens: `\r\n` and a lone `\r` each read as one `\n`; every other
      character reads as itself. */
  lemma TranslateNewlinesTokens(c: char)
    ensures TranslateNewlines("\r\n") == "\n"
    ensures TranslateNewlines("\r") == "\n"
    ensures c != '\r' ==> TranslateNewlines([c]) == [c]
  {
    assert "\r\n"[2..] == [] && "\r"[1..] == [];
    assert [c][1..] == [];
  }

  /** Both line-end conventions read back as a single `\n`. */
  lemma TranslateNewlinesExample()
    ensures TranslateNewlines("a\r\nb") == "a\nb"
    ensures TranslateNewlines("a\rb") == "a\nb"
  {
    assert "a\r\nb"[1..] == "\r\nb" && "\r\nb"[2..] == "b";
    assert "a\rb"[1..] == "\rb" && "\rb"[1..] == "b";
    assert TranslateNewlines("b") == "b";
  }

  /** `file.read(10001)` followed by the truncation rule. */
  function Truncate(content: string): (r: string)
    ensures |content| <= MaxChars ==> r == content
    ensures |content| > MaxChars ==> r == content[..MaxChars] + TruncationMarker
  {
    var read := if |content| <= ReadChars then content else content[..ReadChars];
    if |read| > MaxChars then read[..MaxChars] + TruncationMarker else read
  }

  /** A read keeps the content's first characters and stays bounded. */
  lemma TruncateKeepsPrefix(content: string)
    ensures |Truncate(content)| <= MaxChars + |TruncationMarker|
    ensures var n := if |content| < MaxChars then |content| else MaxChars;
            Truncate(content)[..n] == content[..n]
  {
  }

  // ---------------------------------------------------------------------
  // Running a script

  const NoOutput: string := "No output produced."

  /** The report of a finished script: both streams, then the return code when
      it is not zero; a run that printed nothing on either stream reports only
      that, whatever its return code. */
  function ProcessReport(stdout: string, stderr: string, code: int): (r: string)
    ensures stdout == [] && stderr == [] ==> r == NoOutput
    ensures !(stdout == [] && stderr == []) ==>
      var streams := "STDOUT: " + stdout + " \nSTDERR: " + stderr;
      |streams| <= |r| && r[..|streams|] == streams &&
      (code == 0 <==> r == streams) &&
      (code != 0 ==> r[|streams|..] == "\nProcess exited with code " + IntToString(code))
  {
    var statement := "STDOUT: " + stdout + " \nSTDERR: " + stderr;
    var statement := if code != 0 then statement + "\nProcess exited with code " + IntToString(code) else statement;
    if stdout == [] && stderr == [] then NoOutput else statement
  }

  /** A report with some output determines the return code. */
  lemma ReportDeterminesExitCode(stdout: string, stderr: string, c1: int, c2: int)
    requires stdout != [] || stderr != []
    requires ProcessReport(stdout, stderr, c1) == ProcessReport(stdout, stderr, c2)
    ensures c1 == c2
  {
    var streams := "STDOUT: " + stdout + " \nSTDERR: " + stderr;
    var r := ProcessReport(stdout, stderr, c1);
    if c1 != 0 && c2 != 0 {
      var tail := "\nProcess exited with code ";
      assert tail + IntToString(c1) == r[|streams|..] == tail + IntToString(c2);
      assert IntToString(c1) == (tail + IntToString(c1))[|tail|..];
      assert IntToString(c2) == (tail + IntToString(c2))[|tail|..];
      IntToStringInjective(c1, c2);
    }
  }

  // ---------------------------------------------------------------------
  // Messages

  const OutsideSuffix: string := " as it is outside the permitted working directory"

  /** A failure reported to the model: the text starts with `Error:`. */
  predicate IsError(s: string) {
    |s| >= 6 && s[..6] == "Error:"
  }

  /** The guard's rejection, naming the verb and the path as requested. */
  function OutsideError(verb: string, path: string): (r: string)
    ensures IsError(r)
  {
    CaughtMessage("Cannot " + verb + " \"" + path + "\"" + OutsideSuffix)
  }

  function NotADirectoryMessage(directory: string): (r: string)
    ensures IsError(r)
  {
    CaughtMessage("\"" + directory + "\" is not a directory")
  }

  function NotAFileMessage(path: string): (r: string)
    ensures IsError(r)
  {
    CaughtMessage("File not found or is not a regular file: \"" + path + "\"")
  }

  function WrittenMessage(path: string, count: nat): (r: string)
    ensures !IsError(r)
  {
    var r := "Successfully wrote to \"" + path + "\" (" + NatToString(count) + " characters written)";
    assert r[0] == 'S';
    r
  }

  function ScriptNotFoundMessage(path: string): (r: string)
    ensures IsError(r)
  {
    CaughtMessage("File \"" + path + "\" not found.")
  }

  function NotPythonMessage(path: string): (r: string)
    ensures IsError(r)
  {
    CaughtMessage("\"" + path + "\" is not a Python file.")
  }

  /** An exception caught by an operation, as `f'Error: {e}'`. */
  function CaughtMessage(description: string): (r: string)
    ensures IsError(r)
  {
    "Error: " + description
  }

  /** An exception caught while running a script. */
  function ExecutionFailedMessage(description: string): (r: string)
    ensures IsError(r)
  {
    CaughtMessage("executing Python file: " + description)
  }
}
