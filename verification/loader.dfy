/**
 * The text side of `CPU.load` in ls8/cpu.py: a program file holds one byte
 * per line as a base-2 literal, optionally followed by a `#` comment; blank
 * lines and lines that are all comment are skipped. Reading the file is not
 * modelled: the lines are the input.
 */
module Loader {
  import opened Wrappers

  /** Why a program cannot be loaded. */
  datatype LoadError =
    | NotBinary(text: string)      // `int(text, 2)` raises ValueError
    | ProgramTooLarge(size: int)   // the copy loop runs past ram[255] (IndexError)

  /** The characters Python's `str.isspace` holds true of. */
  predicate IsSpace(c: char) {
    c == ' ' || '\t' <= c <= '\r' || '\U{1C}' <= c <= '\U{1F}' ||
    c == '\U{85}' || c == '\U{A0}' || c == '\U{1680}' || '\U{2000}' <= c <= '\U{200A}' ||
    c == '\U{2028}' || c == '\U{2029}' || c == '\U{202F}' || c == '\U{205F}' || c == '\U{3000}'
  }

  /** No whitespace at either end. */
  predicate Tight(s: string) {
    s == [] || (!IsSpace(s[0]) && !IsSpace(s[|s| - 1]))
  }

  /** `s.lstrip()`: drops the leading whitespace and nothing else. */
  function TrimStart(s: string): (r: string)
    ensures |r| <= |s|
    ensures r == [] || !IsSpace(r[0])
  {
    if s != [] && IsSpace(s[0]) then TrimStart(s[1..]) else s
  }

  /** `s.rstrip()`: drops the trailing whitespace and nothing else. */
  function TrimEnd(s: string): (r: string)
    ensures |r| <= |s|
    ensures r == [] || (!IsSpace(r[|r| - 1]) && r[0] == s[0])
  {
    if s != [] && IsSpace(s[|s| - 1]) then TrimEnd(s[..|s| - 1]) else s
  }

  /** `s.strip()`. */
  function Strip(s: string): (r: string)
    ensures Tight(r)
    ensures Tight(s) ==> r == s
  {
    TrimEnd(TrimStart(s))
  }

  lemma {:induction false} TrimStartShape(s: string)
    ensures var r := TrimStart(s);
      s[|s| - |r|..] == r && forall i :: 0 <= i < |s| - |r| ==> IsSpace(s[i])
    decreases |s|
  {
    if s != [] && IsSpace(s[0]) {
      TrimStartShape(s[1..]);
    }
  }

  lemma {:induction false} TrimEndShape(s: string)
    ensures var r := TrimEnd(s);
      s[..|r|] == r && forall i :: |r| <= i < |s| ==> IsSpace(s[i])
    decreases |s|
  {
    if s != [] && IsSpace(s[|s| - 1]) {
      TrimEndShape(s[..|s| - 1]);
    }
  }

  /**
   * `strip` removes whitespace at the two ends and nothing else: what it
   * returns sits in `s` after `front` whitespace characters and before `back`
   * more, and (by Strip's contract) neither begins nor ends with whitespace.
   */
  lemma StripShape(s: string) returns (front: nat, back: nat)
    ensures front + |Strip(s)| + back == |s|
    ensures s[front..front + |Strip(s)|] == Strip(s)
    ensures forall i :: 0 <= i < front ==> IsSpace(s[i])
    ensures forall i :: front + |Strip(s)| <= i < |s| ==> IsSpace(s[i])
  {
    var t, u := TrimStart(s), Strip(s);
    assert u == TrimEnd(t);
    front := |s| - |t|;
    back := |t| - |u|;
    assert s[front..] == t && forall i :: 0 <= i < front ==> IsSpace(s[i]) by {
      TrimStartShape(s);
    }
    assert t[..|u|] == u && forall j :: |u| <= j < |t| ==> IsSpace(t[j]) by {
      TrimEndShape(t);
    }
    forall i | front <= i < |s| ensures s[i] == t[i - front] {
      assert s[front..][i - front] == s[i];
    }
    assert s[front..front + |u|] == u;
  }

  /** `'#' in s` and `s.index('#')` together: where the first `#` is, if anywhere. */
  function FindHash(s: string): (r: Option<nat>)
    ensures r.None? ==> '#' !in s
    ensures r.Some? ==> r.value < |s| && s[r.value] == '#' && '#' !in s[..r.value]
  {
    if s == [] then None
    else if s[0] == '#' then Some(0)
    else
      match FindHash(s[1..])
      case None => None
      case Some(i) =>
        assert s[..i + 1] == [s[0]] + s[1..][..i];
        Some(i + 1)
  }

  predicate IsBit(c: char) {
    c == '0' || c == '1'
  }

  predicate AllBits(s: string) {
    forall i :: 0 <= i < |s| ==> IsBit(s[i])
  }

  /** The value of binary digits, most significant first. */
  function BitsValue(s: string): nat
    requires AllBits(s)
  {
    if s == [] then 0 else 2 * BitsValue(s[..|s| - 1]) + (if s[|s| - 1] == '1' then 1 else 0)
  }

  /** Binary digits with single underscores between them, the digit string `int` accepts. */
  predicate Grouped(s: string) {
    |s| > 0 && IsBit(s[0]) && GroupedTail(s[1..])
  }

  /** What may follow a digit: more digits, each optionally after one underscore. */
  predicate GroupedTail(s: string) {
    s == [] ||
    (IsBit(s[0]) && GroupedTail(s[1..])) ||
    (|s| >= 2 && s[0] == '_' && IsBit(s[1]) && GroupedTail(s[2..]))
  }

  /** The digits of `s` with its underscores removed. */
  function Ungrouped(s: string): (d: string)
    ensures |d| <= |s|
    ensures '_' !in s ==> d == s
  {
    if s == [] then []
    else (if s[0] == '_' then [] else [s[0]]) + Ungrouped(s[1..])
  }

  lemma {:induction false} UngroupedTailBits(s: string)
    requires GroupedTail(s)
    ensures AllBits(Ungrouped(s))
    decreases |s|
  {
    if s != [] {
      if IsBit(s[0]) && GroupedTail(s[1..]) {
        UngroupedTailBits(s[1..]);
      } else {
        assert s[1..][1..] == s[2..];
        UngroupedTailBits(s[2..]);
      }
    }
  }

  lemma UngroupedBits(s: string)
    requires Grouped(s)
    ensures AllBits(Ungrouped(s))
  {
    UngroupedTailBits(s[1..]);
  }

  /** A digit string, or None where `int` rejects it. */
  function Digits(s: string): Option<nat> {
    if Grouped(s) then
      UngroupedBits(s);
      Some(BitsValue(Ungrouped(s)))
    else
      None
  }

  /** The unsigned part of a literal: an optional `0b`/`0B` prefix (which may be followed by one underscore), then digits. */
  function Magnitude(s: string): Option<nat> {
    if |s| >= 2 && s[0] == '0' && (s[1] == 'b' || s[1] == 'B') then
      var rest := s[2..];
      Digits(if rest != [] && rest[0] == '_' then rest[1..] else rest)
    else
      Digits(s)
  }

  /** `int(s, 2)` on text without surrounding whitespace; None where it raises ValueError. */
  function ParseInt2(s: string): (r: Option<int>)
    ensures s == [] ==> r == None
    ensures r.Some? && r.value < 0 ==> s[0] == '-'
    ensures r.Some? && s[0] == '-' ==> r.value <= 0
  {
    if s != [] && (s[0] == '+' || s[0] == '-') then
      match Magnitude(s[1..])
      case None => None
      case Some(n) =>
        var v: int := if s[0] == '-' then -(n as int) else n;
        Some(v)
    else
      Magnitude(s)
  }

  /** The characters a base-2 literal may hold. */
  predicate LiteralChar(c: char) {
    IsBit(c) || c == '_' || c == 'b' || c == 'B' || c == '+' || c == '-'
  }

  lemma {:induction false} GroupedTailChars(s: string)
    requires GroupedTail(s)
    ensures forall i :: 0 <= i < |s| ==> IsBit(s[i]) || s[i] == '_'
    decreases |s|
  {
    if s != [] {
      if IsBit(s[0]) && GroupedTail(s[1..]) {
        GroupedTailChars(s[1..]);
        assert forall i :: 1 <= i < |s| ==> s[i] == s[1..][i - 1];
      } else {
        GroupedTailChars(s[2..]);
        assert forall i :: 2 <= i < |s| ==> s[i] == s[2..][i - 2];
      }
    }
  }

  lemma DigitsChars(s: string)
    requires Digits(s).Some?
    ensures forall i :: 0 <= i < |s| ==> IsBit(s[i]) || s[i] == '_'
  {
    GroupedTailChars(s[1..]);
    assert forall i :: 1 <= i < |s| ==> s[i] == s[1..][i - 1];
  }

  lemma MagnitudeChars(s: string)
    requires Magnitude(s).Some?
    ensures forall i :: 0 <= i < |s| ==> LiteralChar(s[i])
  {
    if |s| >= 2 && s[0] == '0' && (s[1] == 'b' || s[1] == 'B') {
      var rest := s[2..];
      if rest != [] && rest[0] == '_' {
        DigitsChars(rest[1..]);
        assert forall i :: 3 <= i < |s| ==> s[i] == rest[1..][i - 3];
      } else {
        DigitsChars(rest);
        assert forall i :: 2 <= i < |s| ==> s[i] == rest[i - 2];
      }
    } else {
      DigitsChars(s);
    }
  }

  /**
   * On the stripped text `load` hands it, `int(s, 2)` raises ValueError when
   * the text holds any character a base-2 literal cannot contain.
   */
  lemma ForeignCharRejected(s: string, i: int)
    requires Tight(s) && 0 <= i < |s| && !LiteralChar(s[i])
    ensures ParseInt2(s) == None
  {
    if ParseInt2(s).Some? {
      if s[0] == '+' || s[0] == '-' {
        MagnitudeChars(s[1..]);
      } else {
        MagnitudeChars(s);
      }
    }
  }

  /** The text a line's value is read from: what precedes its first `#`, stripped. */
  function CodeText(line: string): string {
    var t := Strip(line);
    match FindHash(t)
    case None => t
    case Some(i) => Strip(t[..i])
  }

  /** A line that adds no byte: blank once stripped, or a comment from its first character. */
  predicate Skipped(line: string) {
    var t := Strip(line);
    t == [] || t[0] == '#'
  }

  function Literal(text: string): Result<Option<int>, LoadError> {
    match ParseInt2(text)
    case Some(v) => Ok(Some(v))
    case None => Err(NotBinary(text))
  }

  /** One turn of the loop over the file's lines: the byte the line adds, if any. */
  function ParseLine(line: string): (r: Result<Option<int>, LoadError>)
    ensures Skipped(line) <==> r == Ok(None)
    ensures !Skipped(line) ==> r.Ok? == ParseInt2(CodeText(line)).Some?
    ensures !Skipped(line) && r.Ok? ==> r.value == ParseInt2(CodeText(line))
  {
    var t := Strip(line);
    match FindHash(t)
    case Some(i) =>
      if i == 0 then Ok(None) else Literal(Strip(t[..i]))
    case None =>
      if t == [] then Ok(None) else Literal(t)
  }

  /** A line whose code holds a character no base-2 literal contains stops the load with NotBinary. */
  lemma ForeignLineRejected(line: string, i: int)
    requires !Skipped(line) && 0 <= i < |CodeText(line)| && !LiteralChar(CodeText(line)[i])
    ensures ParseLine(line) == Err(NotBinary(CodeText(line)))
  {
    ForeignCharRejected(CodeText(line), i);
  }

  /** The bytes that parsed lines add, in file order, or the first line's error. */
  function Gather(parsed: seq<Result<Option<int>, LoadError>>): (r: Result<seq<int>, LoadError>)
    ensures r.Ok? <==> forall i :: 0 <= i < |parsed| ==> parsed[i].Ok?
    ensures r.Ok? ==> |r.value| <= |parsed|
  {
    if parsed == [] then Ok([])
    else
      var program :- Gather(parsed[..|parsed| - 1]);
      var byte :- parsed[|parsed| - 1];
      Ok(if byte.Some? then program + [byte.value] else program)
  }

  /** `f` applied to each element of `s`. */
  function Map<A, B>(f: A -> B, s: seq<A>): (r: seq<B>)
    ensures |r| == |s| && forall i :: 0 <= i < |s| ==> r[i] == f(s[i])
  {
    seq(|s|, i requires 0 <= i < |s| => f(s[i]))
  }

  lemma MapAppend<A, B>(f: A -> B, a: seq<A>, b: seq<A>)
    ensures Map(f, a + b) == Map(f, a) + Map(f, b)
  {
    assert forall i :: 0 <= i < |a| + |b| ==> Map(f, a + b)[i] == (Map(f, a) + Map(f, b))[i];
  }

  /** Each line of a file, parsed on its own. */
  function ParsedLines(lines: seq<string>): (r: seq<Result<Option<int>, LoadError>>)
    ensures |r| == |lines| && forall i :: 0 <= i < |lines| ==> r[i] == ParseLine(lines[i])
  {
    Map(ParseLine, lines)
  }

  /** The bytes a whole file yields, or the error of its first bad line. */
  function ProgramOf(lines: seq<string>): (r: Result<seq<int>, LoadError>)
    ensures r.Ok? <==> forall i :: 0 <= i < |lines| ==> ParseLine(lines[i]).Ok?
    ensures r.Ok? ==> |r.value| <= |lines|
  {
    Gather(ParsedLines(lines))
  }

  /** The `for line in lines` loop of `load`, building `program` by appending. */
  method ParseProgram(lines: seq<string>) returns (r: Result<seq<int>, LoadError>)
    ensures r == ProgramOf(lines)
  {
    var program := [];
    ghost var parsed := ParsedLines(lines);
    for i := 0 to |lines|
      invariant Gather(parsed[..i]) == Ok(program)
    {
      var byte := ParseLine(lines[i]);
      PrefixSnoc(parsed, i);
      GatherSnoc(parsed[..i], byte);
      if byte.Err? {
        PrefixSplit(parsed, i + 1);
        GatherAppend(parsed[..i + 1], parsed[i + 1..]);
        return Err(byte.error);
      }
      if byte.value.Some? {
        program := program + [byte.value.value];
      }
    }
    PrefixSplit(parsed, |lines|);
    return Ok(program);
  }

  // ---------------------------------------------------------------------
  // Properties of the file format
  // ---------------------------------------------------------------------

  lemma PrefixSnoc<T>(s: seq<T>, i: int)
    requires 0 <= i < |s|
    ensures s[..i + 1] == s[..i] + [s[i]]
  {
  }

  lemma PrefixSplit<T>(s: seq<T>, i: int)
    requires 0 <= i <= |s|
    ensures s[..i] + s[i..] == s && s[..|s|] == s
  {
  }

  /** One more line: its error, if it has one, or the byte it adds, if any. */
  lemma GatherSnoc(p: seq<Result<Option<int>, LoadError>>, x: Result<Option<int>, LoadError>)
    ensures Gather(p).Err? ==> Gather(p + [x]) == Gather(p)
    ensures Gather(p).Ok? && x.Err? ==> Gather(p + [x]) == Err(x.error)
    ensures Gather(p).Ok? && x.Ok? ==>
      Gather(p + [x]) == Ok(Gather(p).value + (if x.value.Some? then [x.value.value] else []))
  {
    assert (p + [x])[..|p|] == p;
    assert Gather(p).Ok? ==> Gather(p).value + [] == Gather(p).value;
  }

  /** Gathering is line by line: two runs of lines in a row give the bytes of each, and the first error wins. */
  lemma {:induction false} GatherAppend(p: seq<Result<Option<int>, LoadError>>, q: seq<Result<Option<int>, LoadError>>)
    ensures Gather(p).Err? ==> Gather(p + q) == Gather(p)
    ensures Gather(p).Ok? && Gather(q).Err? ==> Gather(p + q) == Gather(q)
    ensures Gather(p).Ok? && Gather(q).Ok? ==> Gather(p + q) == Ok(Gather(p).value + Gather(q).value)
    decreases |q|
  {
    if q == [] {
      assert p + q == p;
      assert Gather(p).Ok? ==> Gather(p).value + [] == Gather(p).value;
    } else {
      var front := q[..|q| - 1];
      assert (p + q)[..|p + q| - 1] == p + front;
      assert (p + q)[|p + q| - 1] == q[|q| - 1];
      GatherAppend(p, front);
      if Gather(p).Ok? && Gather(q).Ok? {
        var last := q[|q| - 1].value;
        if last.Some? {
          assert Gather(p).value + Gather(front).value + [last.value]
              == Gather(p).value + (Gather(front).value + [last.value]);
        }
      }
    }
  }

  /** The bytes of two files in a row are the bytes of each, and the first bad line's error wins. */
  lemma ProgramOfAppend(a: seq<string>, b: seq<string>)
    ensures ProgramOf(a).Err? ==> ProgramOf(a + b) == ProgramOf(a)
    ensures ProgramOf(a).Ok? && ProgramOf(b).Err? ==> ProgramOf(a + b) == ProgramOf(b)
    ensures ProgramOf(a).Ok? && ProgramOf(b).Ok? ==> ProgramOf(a + b) == Ok(ProgramOf(a).value + ProgramOf(b).value)
  {
    MapAppend(ParseLine, a, b);
    GatherAppend(ParsedLines(a), ParsedLines(b));
  }

  lemma GatherOne(x: Result<Option<int>, LoadError>)
    ensures Gather([x]) == match x
      case Err(e) => Err(e)
      case Ok(None) => Ok([])
      case Ok(Some(v)) => Ok([v])
  {
    assert [x][..0] == [];
    assert Gather([]) == Ok([]);
    match x
    case Err(e) =>
    case Ok(None) =>
    case Ok(Some(v)) => assert [] + [v] == [v];
  }

  /** The bytes a one-line file yields. */
  lemma ProgramOfLine(line: string)
    ensures ProgramOf([line]) == match ParseLine(line)
      case Err(e) => Err(e)
      case Ok(None) => Ok([])
      case Ok(Some(v)) => Ok([v])
  {
    assert ParsedLines([line]) == [ParseLine(line)];
    GatherOne(ParseLine(line));
  }

  /** A blank or comment line can be dropped from a file without changing what it loads. */
  lemma SkippedLineIsInert(a: seq<string>, line: string, b: seq<string>)
    requires Skipped(line)
    ensures ProgramOf(a + [line] + b) == ProgramOf(a + b)
  {
    ProgramOfLine(line);
    ProgramOfAppend(a, [line]);
    assert ProgramOf(a).Ok? ==> ProgramOf(a).value + [] == ProgramOf(a).value;
    ProgramOfAppend(a + [line], b);
    ProgramOfAppend(a, b);
  }

  /** Binary digits of n, most significant first, no leading zeros. */
  function Bits(n: nat): (s: string)
    ensures |s| > 0 && AllBits(s)
  {
    if n < 2 then [if n == 0 then '0' else '1']
    else Bits(n / 2) + [if n % 2 == 0 then '0' else '1']
  }

  /** An integer written the way a program file writes a byte. */
  function Render(v: int): string {
    if v < 0 then "-" + Bits(-v) else Bits(v)
  }

  lemma {:induction false} BitsAreGrouped(s: string)
    requires AllBits(s)
    ensures GroupedTail(s) && '_' !in s
    decreases |s|
  {
    if s != [] {
      BitsAreGrouped(s[1..]);
      assert s == [s[0]] + s[1..];
    }
  }

  lemma {:induction false} BitsValueOfBits(n: nat)
    ensures BitsValue(Bits(n)) == n
  {
    if n >= 2 {
      var s := Bits(n);
      assert s[..|s| - 1] == Bits(n / 2);
      BitsValueOfBits(n / 2);
    }
  }

  lemma MagnitudeOfBits(n: nat)
    ensures Magnitude(Bits(n)) == Some(n)
  {
    var s := Bits(n);
    BitsValueOfBits(n);
    BitsAreGrouped(s);
    assert Grouped(s);
    assert |s| >= 2 ==> IsBit(s[1]);
  }

  /** `int(..., 2)` reads back every rendered integer. */
  lemma ParseRender(v: int)
    ensures ParseInt2(Render(v)) == Some(v)
  {
    if v < 0 {
      MagnitudeOfBits(-v);
      assert Render(v)[1..] == Bits(-v);
    } else {
      MagnitudeOfBits(v);
      assert IsBit(Render(v)[0]);
    }
  }

  lemma {:induction false} TrimEndAfterTight(a: string, b: string)
    requires a == [] || !IsSpace(a[|a| - 1])
    ensures TrimEnd(a + b) == a + TrimEnd(b)
    decreases |b|
  {
    if b == [] {
      assert a + b == a;
    } else if IsSpace(b[|b| - 1]) {
      assert (a + b)[..|a + b| - 1] == a + b[..|b| - 1];
      TrimEndAfterTight(a, b[..|b| - 1]);
    }
  }

  lemma {:induction false} FindHashAfter(a: string, b: string)
    requires '#' !in a && b != [] && b[0] == '#'
    ensures FindHash(a + b) == Some(|a|)
    decreases |a|
  {
    if a == [] {
      assert a + b == b;
    } else {
      assert (a + b)[1..] == a[1..] + b;
      FindHashAfter(a[1..], b);
    }
  }

  /** A rendered integer is one word: no whitespace at its ends and no `#`. */
  lemma RenderShape(v: int)
    ensures Render(v) != [] && Tight(Render(v)) && '#' !in Render(v)
  {
    var s := Render(v);
    assert IsBit(s[|s| - 1]);
    assert forall i :: 0 <= i < |s| ==> s[i] == '-' || IsBit(s[i]);
  }

  /** A line holding just a rendered value loads that value. */
  lemma LineRoundTrip(v: int)
    ensures ParseLine(Render(v)) == Ok(Some(v))
  {
    RenderShape(v);
    ParseRender(v);
  }

  lemma StripWordThenSpace(s: string)
    requires s != [] && Tight(s)
    ensures Strip(s + " ") == s
  {
    assert TrimStart(s + " ") == s + " ";
    TrimEndAfterTight(s, " ");
  }

  lemma StripWordThenComment(s: string, comment: string)
    requires s != [] && Tight(s)
    ensures Strip(s + " #" + comment) == s + " #" + TrimEnd(comment)
  {
    assert TrimStart(s + " #" + comment) == s + " #" + comment;
    TrimEndAfterTight(s + " #", comment);
  }

  /** The code of a word followed by ` #` and a comment is the word. */
  lemma CommentedCode(s: string, comment: string)
    requires s != [] && Tight(s) && '#' !in s
    ensures !Skipped(s + " #" + comment) && CodeText(s + " #" + comment) == s
  {
    var t := s + " #" + TrimEnd(comment);
    StripWordThenComment(s, comment);
    assert FindHash(t) == Some(|s| + 1) by {
      assert t == (s + " ") + ("#" + TrimEnd(comment));
      FindHashAfter(s + " ", "#" + TrimEnd(comment));
    }
    assert t[..|s| + 1] == s + " ";
    StripWordThenSpace(s);
  }

  /** `int(s, 2)` on plain binary digits, leading zeros allowed, is their base-2 value. */
  lemma PaddedDigits(s: string)
    requires s != [] && AllBits(s)
    ensures ParseInt2(s) == Some(BitsValue(s))
  {
    BitsAreGrouped(s);
    BitsAreGrouped(s[1..]);
    assert Grouped(s);
    assert Ungrouped(s) == s;
  }

  /** A `0b` or `0B` prefix before binary digits does not change the value `int(text, 2)` returns. */
  lemma PrefixedDigits(prefix: string, s: string)
    requires prefix == "0b" || prefix == "0B"
    requires s != [] && AllBits(s)
    ensures ParseInt2(prefix + s) == Some(BitsValue(s))
  {
    var t := prefix + s;
    assert t[0] == '0' && (t[1] == 'b' || t[1] == 'B') && t[2..] == s;
    assert IsBit(s[0]);
    assert Magnitude(t) == Digits(s);
    assert Magnitude(s) == Digits(s) by {
      assert |s| >= 2 ==> IsBit(s[1]);
    }
    PaddedDigits(s);
  }

  /** Plain binary digits are one word: no whitespace at their ends and no `#`. */
  lemma DigitsShape(s: string)
    requires s != [] && AllBits(s)
    ensures Tight(s) && '#' !in s
  {
    assert IsBit(s[0]) && IsBit(s[|s| - 1]);
    assert forall i :: 0 <= i < |s| ==> IsBit(s[i]);
  }

  /** A line of binary digits, such as `00001000`, loads their base-2 value. */
  lemma PaddedLine(s: string)
    requires s != [] && AllBits(s)
    ensures ParseLine(s) == Ok(Some(BitsValue(s)))
  {
    DigitsShape(s);
    PaddedDigits(s);
  }

  /** Binary digits followed by ` #` and any comment, such as `01000111 # PRN R0`, load their base-2 value. */
  lemma PaddedCommentedLine(s: string, comment: string)
    requires s != [] && AllBits(s)
    ensures ParseLine(s + " #" + comment) == Ok(Some(BitsValue(s)))
  {
    DigitsShape(s);
    CommentedCode(s, comment);
    PaddedDigits(s);
  }

  /** A rendered value followed by ` #` and any comment loads that value. */
  lemma CommentedLineRoundTrip(v: int, comment: string)
    ensures ParseLine(Render(v) + " #" + comment) == Ok(Some(v))
  {
    RenderShape(v);
    CommentedCode(Render(v), comment);
    ParseRender(v);
  }

  /** A file with one rendered value per line. */
  function Listing(values: seq<int>): (lines: seq<string>)
    ensures |lines| == |values|
  {
    seq(|values|, i requires 0 <= i < |values| => Render(values[i]))
  }

  /** Lines that each hold a byte gather to those bytes, in order. */
  lemma {:induction false} GatherBytes(parsed: seq<Result<Option<int>, LoadError>>, values: seq<int>)
    requires |parsed| == |values|
    requires forall i :: 0 <= i < |parsed| ==> parsed[i] == Ok(Some(values[i]))
    ensures Gather(parsed) == Ok(values)
    decreases |parsed|
  {
    if parsed != [] {
      var n := |parsed| - 1;
      GatherBytes(parsed[..n], values[..n]);
      assert values[..n] + [values[n]] == values;
    }
  }

  /** A file whose every line is binary digits loads their base-2 values, in order. */
  lemma DigitFileLoads(lines: seq<string>)
    requires forall i :: 0 <= i < |lines| ==> lines[i] != [] && AllBits(lines[i])
    ensures ProgramOf(lines) == Ok(seq(|lines|, i requires 0 <= i < |lines| => BitsValue(lines[i])))
  {
    var values := seq(|lines|, i requires 0 <= i < |lines| => BitsValue(lines[i]));
    var parsed := ParsedLines(lines);
    forall i | 0 <= i < |lines| ensures parsed[i] == Ok(Some(values[i])) {
      PaddedLine(lines[i]);
    }
    GatherBytes(parsed, values);
  }

  /** Writing values out as a file and loading it gives the values back. */
  lemma ListingRoundTrip(values: seq<int>)
    ensures ProgramOf(Listing(values)) == Ok(values)
  {
    var parsed := ParsedLines(Listing(values));
    forall i | 0 <= i < |values| ensures parsed[i] == Ok(Some(values[i])) {
      assert Listing(values)[i] == Render(values[i]);
      LineRoundTrip(values[i]);
    }
    GatherBytes(parsed, values);
  }
}
