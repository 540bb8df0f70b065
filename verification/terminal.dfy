/** The prompt side of `src/terminal.rs`: recognising the exit keywords and
    deciding, line by line, whether the user asked to leave, typed nothing,
    or gave a prompt. Standard input is modelled as the sequence of lines it
    delivers, each still carrying its line terminator. */
module Terminal {
  import Wrappers

  /** What `get_new_prompt` returns. */
  datatype PromptStatus = Success(prompt: string) | Exit

  /** What one iteration of the prompt loop does with the line it read. */
  datatype LineVerdict = Return(status: PromptStatus) | Reprompt

  /** The code points of the Unicode White_Space property. */
  const WhitespaceCodePoints: set<int> :=
    { 0x09, 0x0A, 0x0B, 0x0C, 0x0D, 0x20, 0x85, 0xA0, 0x1680,
      0x2000, 0x2001, 0x2002, 0x2003, 0x2004, 0x2005, 0x2006, 0x2007, 0x2008, 0x2009, 0x200A,
      0x2028, 0x2029, 0x202F, 0x205F, 0x3000 }

  /** Rust's `char::is_whitespace`. */
  predicate IsWhitespace(c: char)
  {
    c as int in WhitespaceCodePoints
  }

  // Trimming is stated for any character class `ws` and used with
  // `IsWhitespace`; the proofs need nothing about which characters it holds.

  /** Every character of `s` is in `ws`. */
  predicate AllIn(s: string, ws: char -> bool)
  {
    forall k :: 0 <= k < |s| ==> ws(s[k])
  }

  /** `trim_start_matches`: drop leading characters of the class. */
  function TrimStartBy(s: string, ws: char -> bool): string
    decreases |s|
  {
    if |s| > 0 && ws(s[0]) then TrimStartBy(s[1..], ws) else s
  }

  /** `trim_end_matches`: drop trailing characters of the class. */
  function TrimEndBy(s: string, ws: char -> bool): string
    decreases |s|
  {
    if |s| > 0 && ws(s[|s| - 1]) then TrimEndBy(s[..|s| - 1], ws) else s
  }

  /** Trimming the front keeps a suffix, removes only class characters, and
      stops at the first character outside the class. */
  lemma {:induction false} TrimStartRemovesClass(s: string, ws: char -> bool)
    ensures var r := TrimStartBy(s, ws);
      && |r| <= |s| && r == s[|s| - |r|..]
      && AllIn(s[..|s| - |r|], ws)
      && (|r| > 0 ==> !ws(r[0]))
    decreases |s|
  {
    if |s| > 0 && ws(s[0]) {
      TrimStartRemovesClass(s[1..], ws);
      var r := TrimStartBy(s, ws);
      assert s[..|s| - |r|] == [s[0]] + s[1..][..|s| - 1 - |r|];
    }
  }

  /** Trimming the back keeps a prefix, removes only class characters, and
      stops at the last character outside the class. */
  lemma {:induction false} TrimEndRemovesClass(s: string, ws: char -> bool)
    ensures var r := TrimEndBy(s, ws);
      && |r| <= |s| && r == s[..|r|]
      && AllIn(s[|r|..], ws)
      && (|r| > 0 ==> !ws(r[|r| - 1]))
    decreases |s|
  {
    if |s| > 0 && ws(s[|s| - 1]) {
      TrimEndRemovesClass(s[..|s| - 1], ws);
      var r := TrimEndBy(s, ws);
      assert s[|r|..] == s[..|s| - 1][|r|..] + [s[|s| - 1]];
    }
  }

  /** `t` is the slice of `s` at offset `i`, with only class characters around it. */
  predicate TrimmedAt(s: string, t: string, i: int, ws: char -> bool)
  {
    && 0 <= i && i + |t| <= |s| && s[i..i + |t|] == t
    && (forall k :: 0 <= k < i ==> ws(s[k]))
    && (forall k :: i + |t| <= k < |s| ==> ws(s[k]))
  }

  /** Neither end of `t` is in the class. */
  predicate Tight(t: string, ws: char -> bool)
  {
    |t| > 0 ==> !ws(t[0]) && !ws(t[|t| - 1])
  }

  /** Trimming both ends: the slice of `s` left after removing leading and
      trailing class characters. */
  function TrimBy(s: string, ws: char -> bool): (r: string)
    ensures Tight(r, ws)
    ensures TrimmedAt(s, r, |s| - |TrimStartBy(s, ws)|, ws)
  {
    TrimEndsAreRemoved(s, ws);
    TrimEndBy(TrimStartBy(s, ws), ws)
  }

  /** What the two one-sided trims remove together lies on both sides of
      what they keep, and what they keep is tight. */
  lemma TrimEndsAreRemoved(s: string, ws: char -> bool)
    ensures Tight(TrimEndBy(TrimStartBy(s, ws), ws), ws)
    ensures TrimmedAt(s, TrimEndBy(TrimStartBy(s, ws), ws), |s| - |TrimStartBy(s, ws)|, ws)
  {
    var t := TrimStartBy(s, ws);
    var r := TrimEndBy(t, ws);
    TrimStartRemovesClass(s, ws);
    TrimEndRemovesClass(t, ws);
    if |r| > 0 {
      assert r[0] == t[0];
    }
    TrimPieces(s, t, r, ws);
  }

  /** Trimming the front to `t` and then the back of `t` to `r` leaves `r`
      at offset `|s| - |t|` with only class characters around it. */
  lemma TrimPieces(s: string, t: string, r: string, ws: char -> bool)
    requires |t| <= |s| && t == s[|s| - |t|..] && AllIn(s[..|s| - |t|], ws)
    requires |r| <= |t| && r == t[..|r|] && AllIn(t[|r|..], ws)
    ensures TrimmedAt(s, r, |s| - |t|, ws)
  {
    var i := |s| - |t|;
    forall k | 0 <= k < i
      ensures ws(s[k])
    {
      assert s[..i][k] == s[k];
    }
    forall k | |r| <= k < |t|
      ensures ws(t[k])
    {
      assert t[|r|..][k - |r|] == t[k];
    }
    SuffixShift(s, i, t, r, ws);
  }

  /** A prefix `r` of the suffix `t` of `s` starting at `i` is the slice of
      `s` at `i`, and class characters after `r` in `t` are class characters
      of `s`. */
  lemma SuffixShift(s: string, i: nat, t: string, r: string, ws: char -> bool)
    requires i <= |s| && t == s[i..]
    requires |r| <= |t| && r == t[..|r|]
    requires forall k :: |r| <= k < |t| ==> ws(t[k])
    ensures s[i..i + |r|] == r
    ensures forall k :: i + |r| <= k < |s| ==> ws(s[k])
  {
    assert s[i..i + |r|] == s[i..][..|r|];
    forall k | i + |r| <= k < |s|
      ensures ws(s[k])
    {
      assert s[k] == t[k - i];
    }
  }

  /** Two tight slices with only class characters around them start and
      end at the same places, unless one of them is empty. */
  lemma TightSlicesAlign(s: string, t: string, i: int, r: string, j: int, ws: char -> bool)
    requires TrimmedAt(s, t, i, ws) && Tight(t, ws) && |t| > 0
    requires TrimmedAt(s, r, j, ws) && Tight(r, ws) && |r| > 0
    ensures i == j && |t| == |r|
  {
    assert s[i] == t[0] && s[i + |t| - 1] == t[|t| - 1];
    assert s[j] == r[0] && s[j + |r| - 1] == r[|r| - 1];
  }

  /** A non-empty tight slice rules out an empty one. */
  lemma TightSliceNotEmpty(s: string, t: string, i: int, r: string, j: int, ws: char -> bool)
    requires TrimmedAt(s, t, i, ws) && Tight(t, ws) && |t| > 0
    requires TrimmedAt(s, r, j, ws)
    ensures |r| > 0
  {
    assert s[i] == t[0];
  }

  /** The trimmed form is the only tight slice of `s` with nothing but
      class characters around it. */
  lemma TrimByIsUnique(s: string, t: string, i: int, ws: char -> bool)
    requires TrimmedAt(s, t, i, ws) && Tight(t, ws)
    ensures t == TrimBy(s, ws)
  {
    var r := TrimBy(s, ws);
    var j := |s| - |TrimStartBy(s, ws)|;
    if |t| > 0 {
      TightSliceNotEmpty(s, t, i, r, j, ws);
      TightSlicesAlign(s, t, i, r, j, ws);
    } else if |r| > 0 {
      TightSliceNotEmpty(s, r, j, t, i, ws);
    }
  }

  /** `str::trim`: drop leading and trailing whitespace. */
  function Trim(s: string): string
  {
    TrimBy(s, IsWhitespace)
  }

  /** The line holds nothing but whitespace. */
  predicate Blank(s: string)
  {
    AllIn(s, IsWhitespace)
  }

  /** The trimmed line is the unique slice with only whitespace around it
      and none at either of its ends. */
  lemma TrimCharacterised(s: string, t: string)
    ensures t == Trim(s) <==> Tight(t, IsWhitespace) && exists i :: TrimmedAt(s, t, i, IsWhitespace)
  {
    if Tight(t, IsWhitespace) && exists i :: TrimmedAt(s, t, i, IsWhitespace) {
      var i :| TrimmedAt(s, t, i, IsWhitespace);
      TrimByIsUnique(s, t, i, IsWhitespace);
    }
  }

  /** Trimming twice is trimming once. */
  lemma TrimIdempotent(s: string)
    ensures Trim(Trim(s)) == Trim(s)
  {
    var r := Trim(s);
    assert TrimmedAt(r, r, 0, IsWhitespace);
    TrimByIsUnique(r, r, 0, IsWhitespace);
  }

  /** Nothing but whitespace trims to nothing, and nothing else does. */
  lemma TrimEmptyIffBlank(s: string)
    ensures Trim(s) == "" <==> Blank(s)
  {
    if Blank(s) {
      assert TrimmedAt(s, "", 0, IsWhitespace);
      TrimByIsUnique(s, "", 0, IsWhitespace);
    }
  }

  /** `to_ascii_lowercase` on one character. */
  function AsciiLower(c: char): char
  {
    if 'A' <= c <= 'Z' then (c as int + 32) as char else c
  }

  /** `eq_ignore_ascii_case`: equal up to the case of ASCII letters. */
  predicate EqIgnoreAsciiCase(a: string, b: string)
  {
    |a| == |b| && forall k :: 0 <= k < |a| ==> AsciiLower(a[k]) == AsciiLower(b[k])
  }

  /** `is_exit_code`: "q" or "quit", ignoring ASCII case. */
  predicate IsExitCode(s: string)
  {
    EqIgnoreAsciiCase(s, "q") || EqIgnoreAsciiCase(s, "quit")
  }

  /** A character lowers to the lower-case ASCII letter `lower` exactly when it
      is that letter in either case. */
  lemma AsciiLowerIs(c: char, lower: char)
    requires 'a' <= lower <= 'z'
    ensures AsciiLower(c) == lower <==> c == lower || c as int == lower as int - 32
  {
  }

  /** The exit keywords spelled out: "q" and "quit" in every mix of cases,
      and nothing else. */
  lemma ExitCodeSpellings(s: string)
    ensures IsExitCode(s) <==>
              || s == "q" || s == "Q"
              || (|s| == 4 && s[0] in "qQ" && s[1] in "uU" && s[2] in "iI" && s[3] in "tT")
  {
    if |s| == 1 {
      AsciiLowerIs(s[0], 'q');
      assert AsciiLower("q"[0]) == 'q';
      if s[0] == 'q' { assert s == "q"; }
      if s[0] == 'Q' { assert s == "Q"; }
    } else if |s| == 4 {
      AsciiLowerIs(s[0], 'q');
      AsciiLowerIs(s[1], 'u');
      AsciiLowerIs(s[2], 'i');
      AsciiLowerIs(s[3], 't');
      var quit := "quit";
      assert AsciiLower(quit[0]) == 'q' && AsciiLower(quit[1]) == 'u';
      assert AsciiLower(quit[2]) == 'i' && AsciiLower(quit[3]) == 't';
    }
  }

  /** One iteration of `get_new_prompt`: trim the line, leave on an exit
      keyword, ask again on an empty line, and otherwise return the trimmed
      prompt. */
  function ClassifyLine(line: string): (v: LineVerdict)
    ensures v == Return(Exit) <==> IsExitCode(Trim(line))
    ensures v == Reprompt <==> Blank(line)
    ensures v.Return? && v.status.Success? ==>
              && v.status.prompt == Trim(line)
              && v.status.prompt != ""
              && !IsExitCode(v.status.prompt)
  {
    TrimEmptyIffBlank(line);
    var trimmed := Trim(line);
    if IsExitCode(trimmed) then Return(Exit)
    else if trimmed == "" then Reprompt
    else Return(Success(trimmed))
  }

  /** A returned prompt is already trimmed, so typing it again verbatim
      returns it again; and neither end of it is whitespace. */
  lemma PromptIsStable(line: string)
    requires ClassifyLine(line).Return? && ClassifyLine(line).status.Success?
    ensures Tight(ClassifyLine(line).status.prompt, IsWhitespace)
    ensures ClassifyLine(ClassifyLine(line).status.prompt) == ClassifyLine(line)
  {
    TrimIdempotent(line);
  }

  /** The loop of `get_new_prompt` over the lines standard input delivers:
      the first line that is not blank decides. `None` means no line
      decides, so the loop is still reading when the input runs out. */
  function GetNewPrompt(lines: seq<string>): (r: Wrappers.Option<PromptStatus>)
    ensures r.Some? <==> exists i :: 0 <= i < |lines| && !Blank(lines[i])
    decreases |lines|
  {
    if |lines| == 0 then Wrappers.None
    else
      match ClassifyLine(lines[0])
      case Return(status) => Wrappers.Some(status)
      case Reprompt =>
        assert forall i :: 1 <= i < |lines| ==> lines[1..][i - 1] == lines[i];
        GetNewPrompt(lines[1..])
  }

  /** The first non-blank line decides the outcome, whatever follows it. */
  lemma {:induction false} FirstNonBlankDecides(lines: seq<string>, k: nat)
    requires k < |lines| && !Blank(lines[k])
    requires forall i :: 0 <= i < k ==> Blank(lines[i])
    ensures GetNewPrompt(lines) == Wrappers.Some(ClassifyLine(lines[k]).status)
    decreases k
  {
    if k > 0 {
      var rest := lines[1..];
      assert ClassifyLine(lines[0]) == Reprompt;
      assert GetNewPrompt(lines) == GetNewPrompt(rest);
      assert forall i :: 0 <= i < k ==> rest[i] == lines[i + 1];
      FirstNonBlankDecides(rest, k - 1);
    }
  }

  /** What the `i`-th call of `read_line` leaves in the fresh buffer: the
      next line, or nothing at all once the input is exhausted (it then
      returns `Ok(0)` without touching the buffer). */
  function ReadLine(input: seq<string>, i: nat): string
  {
    if i < |input| then input[i] else ""
  }

  /** The lines the loop has seen after `n` reads. */
  function Reads(input: seq<string>, n: nat): (lines: seq<string>)
    ensures |lines| == n
  {
    seq(n, i requires 0 <= i < n => ReadLine(input, i))
  }

  /** At the end of input the loop never returns: if no delivered line is
      non-blank, no number of further reads lets it decide. The empty input
      (end of file straight away) is an instance. */
  lemma EndOfInputNeverReturns(input: seq<string>, n: nat)
    requires forall i :: 0 <= i < |input| ==> Blank(input[i])
    ensures GetNewPrompt(Reads(input, n)) == Wrappers.None
  {
    var lines := Reads(input, n);
    forall i | 0 <= i < n ensures Blank(lines[i]) {
      assert lines[i] == ReadLine(input, i);
    }
  }

  /** The loop with the end of input treated as a request to leave: the
      first non-blank line decides as before, and running out of lines
      means `Exit`. */
  function GetNewPromptOrExit(lines: seq<string>): (r: PromptStatus)
    ensures GetNewPrompt(lines).Some? ==> r == GetNewPrompt(lines).value
    ensures GetNewPrompt(lines).None? ==> r == Exit
    decreases |lines|
  {
    if |lines| == 0 then Exit
    else
      match ClassifyLine(lines[0])
      case Return(status) => status
      case Reprompt => GetNewPromptOrExit(lines[1..])
  }

  /** Reading on after a line decided changes nothing; after blank lines
      only, the rest decides. */
  lemma {:induction false} GetNewPromptAppend(a: seq<string>, b: seq<string>)
    ensures GetNewPrompt(a + b) == if GetNewPrompt(a).Some? then GetNewPrompt(a) else GetNewPrompt(b)
    decreases |a|
  {
    if |a| == 0 {
      assert a + b == b;
    } else {
      assert (a + b)[0] == a[0];
      assert (a + b)[1..] == a[1..] + b;
      GetNewPromptAppend(a[1..], b);
    }
  }

  /** Reading past the end of the input delivers empty lines only. */
  lemma ReadsPastEnd(input: seq<string>, n: nat)
    requires n >= |input|
    ensures Reads(input, n) == input + Reads([], n - |input|)
  {
    var lines := Reads(input, n);
    var rest := Reads([], n - |input|);
    forall k | 0 <= k < n
      ensures lines[k] == (input + rest)[k]
    {
      if k >= |input| {
        assert rest[k - |input|] == "";
      }
    }
  }

  /** With the end of input treated as `Exit`, reading on past the end of the
      input never changes the answer: every input is answered within its own
      lines, and an empty input leaves at once. */
  lemma EndOfInputExits(input: seq<string>, n: nat)
    requires n >= |input|
    ensures GetNewPromptOrExit(Reads(input, n)) == GetNewPromptOrExit(input)
  {
    ReadsPastEnd(input, n);
    GetNewPromptAppend(input, Reads([], n - |input|));
    EndOfInputNeverReturns([], n - |input|);
  }
}
