/** The parser of the line-oriented decTest corpus format of the General
    Decimal Arithmetic test suite: directive lines configure the settings
    that later cases inherit, case lines become `TestCase` records. */
module DecTest {
  import opened Results
  import opened GoStrings

  /** One conformance case, together with the directive settings in force
      when its line was read. */
  datatype TestCase = TestCase(
    precision: int,
    maxExponent: int,
    minExponent: int,
    rounding: string,
    extended: bool,
    clamp: bool,
    id: string,
    operation: string,
    operands: seq<string>,
    result: string,
    conditions: seq<string>)

  /** The directive-controlled part of a `TestCase`: what carries over from
      one case line to the next. */
  datatype Settings = Settings(
    precision: int,
    maxExponent: int,
    minExponent: int,
    rounding: string,
    extended: bool,
    clamp: bool)

  function SettingsOf(tc: TestCase): Settings {
    Settings(tc.precision, tc.maxExponent, tc.minExponent, tc.rounding, tc.extended, tc.clamp)
  }

  /** Before any directive: extended arithmetic on, everything else zero. */
  const InitialSettings: Settings := Settings(0, 0, 0, "", true, false)

  /** `HasNull`: the case uses the corpus's null marker `#`, as its result or
      as one of its operands. */
  function HasNull(tc: TestCase): (r: bool)
    ensures r <==> tc.result == "#" || "#" in tc.operands
  {
    tc.result == "#" || AnyNull(tc.operands)
  }

  /** The linear search of `HasNull` over the operands. */
  function AnyNull(ops: seq<string>): (r: bool)
    ensures r <==> "#" in ops
    decreases |ops|
  {
    if ops == [] then false
    else if ops[0] == "#" then true
    else
      assert ops == [ops[0]] + ops[1..];
      AnyNull(ops[1..])
  }

  /** `SkipPrecision`: only the conversion operations `tosci`, `toeng` and
      `apply` read their operands at the case's own precision. */
  function SkipPrecision(tc: TestCase): (r: bool)
    ensures !r <==> tc.operation in {"tosci", "toeng", "apply"}
  {
    !(tc.operation == "tosci" || tc.operation == "toeng" || tc.operation == "apply")
  }

  /** `strings.Replace(s, qq, q, -1)`: every doubled quote, taken left to
      right without overlap, becomes a single one. */
  function Unescape(s: string, q: char): (r: string)
    ensures |r| <= |s|
    decreases |s|
  {
    if s == [] then []
    else if |s| >= 2 && s[0] == q && s[1] == q then [q] + Unescape(s[2..], q)
    else [s[0]] + Unescape(s[1..], q)
  }

  /** `s` is longer than one character and starts and ends with `q`. */
  predicate IsEnclosedIn(s: string, q: char) {
    |s| > 1 && s[0] == q && s[|s| - 1] == q
  }

  /** `cleanNumber`: removes one enclosing pair of single quotes, else of
      double quotes, and un-doubles that quote inside; any other token is
      kept as it is. */
  function CleanNumber(s: string): (r: string)
    ensures |r| <= |s|
    ensures !IsEnclosedIn(s, '\'') && !IsEnclosedIn(s, '"') ==> r == s
  {
    if IsEnclosedIn(s, '\'') then Unescape(s[1..|s| - 1], '\'')
    else if IsEnclosedIn(s, '"') then Unescape(s[1..|s| - 1], '"')
    else s
  }

  function CleanNumbers(ts: seq<string>): (r: seq<string>)
    ensures |r| == |ts|
    ensures forall i :: 0 <= i < |ts| ==> r[i] == CleanNumber(ts[i])
  {
    seq(|ts|, i requires 0 <= i < |ts| => CleanNumber(ts[i]))
  }

  /** The regular expression `^-0(\.0+)?(E.*)?$` by which negative-zero
      results are recognised, as a left-to-right check. */
  predicate IsNegZero(s: string) {
    |s| >= 2 && s[0] == '-' && s[1] == '0' && NegZeroTail(s[2..])
  }

  /** `(E.*)?$`: nothing, or `E` followed by characters other than a
      newline. */
  predicate ExponentPart(t: string) {
    t == [] || (t[0] == 'E' && '\n' !in t[1..])
  }

  /** The number of `0` characters that start `t`. */
  function ZeroRun(t: string): (n: nat)
    ensures n <= |t|
    ensures forall i :: 0 <= i < n ==> t[i] == '0'
    ensures n < |t| ==> t[n] != '0'
    decreases |t|
  {
    if t == [] || t[0] != '0' then 0 else 1 + ZeroRun(t[1..])
  }

  /** `(\.0+)?(E.*)?$` */
  predicate NegZeroTail(t: string) {
    ExponentPart(t)
    || (|t| >= 2 && t[0] == '.' && ZeroRun(t[1..]) >= 1 && ExponentPart(t[1..][ZeroRun(t[1..])..]))
  }

  /** A token marks an infinite or NaN operand. */
  predicate IsSpecial(o: string) {
    Contains(ToLower(o), "inf") || Contains(ToLower(o), "nan")
  }

  /** Why a corpus is rejected. */
  datatype ParseError =
    | DirectiveArity(line: string)            // a directive line without exactly 2 tokens
    | BadNumber(token: string)                // a numeric directive value Atoi refuses
    | UnsupportedDirective(directive: string) // the directive token, colon included
    | ShortCaseLine(line: string)             // a case line with fewer than 5 tokens
    | BadCaseLine(line: string)               // no `->`, no operand, or no result

  /** The index of the first token that opens a `--` comment, or the number
      of tokens when there is none. */
  function CommentStart(toks: seq<string>): (k: nat)
    ensures k <= |toks|
    ensures forall j :: 0 <= j < k ==> !HasPrefix(toks[j], "--")
    ensures k < |toks| ==> HasPrefix(toks[k], "--")
    decreases |toks|
  {
    if toks == [] || HasPrefix(toks[0], "--") then 0 else 1 + CommentStart(toks[1..])
  }

  /** The tokens of a line: the fields of the lower-cased line, up to the
      first comment token. */
  function Tokens(text: string): seq<string> {
    var f := Fields(ToLower(text));
    f[..CommentStart(f)]
  }

  /** The index of the first `->` token, or the number of tokens when there
      is none. */
  function ArrowIndex(toks: seq<string>): (k: nat)
    ensures k <= |toks|
    ensures forall j :: 0 <= j < k ==> toks[j] != "->"
    ensures k < |toks| ==> toks[k] == "->"
    decreases |toks|
  {
    if toks == [] || toks[0] == "->" then 0 else 1 + ArrowIndex(toks[1..])
  }

  predicate IsDirective(toks: seq<string>) {
    |toks| > 0 && HasSuffix(toks[0], ":")
  }

  /** A numeric directive value, or the error Atoi reports for it. */
  function DirectiveNumber(value: string): Result<int, ParseError> {
    match Atoi(value)
    case Ok(n) => Ok(n)
    case Err(token) => Err(BadNumber(token))
  }

  /** The settings after the directive line `text`, whose tokens are
      `toks`. */
  function ApplyDirective(s: Settings, toks: seq<string>, text: string): (r: Result<Settings, ParseError>)
    requires IsDirective(toks)
    ensures r == Err(DirectiveArity(text)) <==> |toks| != 2
    ensures r.Err? && |toks| == 2 ==> r.error == BadNumber(toks[1]) || r.error == UnsupportedDirective(toks[0])
  {
    if |toks| != 2 then Err(DirectiveArity(text))
    else
      var directive := toks[0];
      var name := directive[..|directive| - 1];
      var value := toks[1];
      if name == "precision" then
        var n :- DirectiveNumber(value); Ok(s.(precision := n))
      else if name == "maxexponent" then
        var n :- DirectiveNumber(value); Ok(s.(maxExponent := n))
      else if name == "minexponent" then
        var n :- DirectiveNumber(value); Ok(s.(minExponent := n))
      else if name == "rounding" then Ok(s.(rounding := value))
      else if name == "version" then Ok(s)
      else if name == "extended" then Ok(s.(extended := value == "1"))
      else if name == "clamp" then Ok(s.(clamp := value == "1"))
      else Err(UnsupportedDirective(directive))
  }

  /** What one line of the corpus does. */
  datatype LineEffect =
    | Skip                        // blank, comment, unsupported or filtered out
    | Configure(settings: Settings)
    | Emit(tc: TestCase)
    | Fail(error: ParseError)

  /** A case line `id operation operand... -> result condition...`. */
  function ParseCase(s: Settings, toks: seq<string>, text: string): (e: LineEffect)
    ensures !e.Configure?
    ensures e == Fail(ShortCaseLine(text)) <==> |toks| < 5
    ensures e.Fail? ==> e.error == ShortCaseLine(text) || e.error == BadCaseLine(text)
    ensures e.Emit? ==> SettingsOf(e.tc) == s && e.tc.id == toks[0] && e.tc.operation == toks[1]
  {
    if |toks| < 5 then Fail(ShortCaseLine(text))
    else
      var rest := toks[2..];
      var k := ArrowIndex(rest);
      if exists j :: 0 <= j < k && IsSpecial(rest[j]) then Skip
      else if k == 0 || k == |rest| || k + 1 == |rest| then Fail(BadCaseLine(text))
      else
        var result := ToUpper(CleanNumber(rest[k + 1]));
        if IsNegZero(result) then Skip
        else
          Emit(TestCase(s.precision, s.maxExponent, s.minExponent, s.rounding, s.extended, s.clamp,
                        toks[0], toks[1], CleanNumbers(rest[..k]), result, rest[k + 2..]))
  }

  /** What the line `text` does when read under the settings `s`. */
  function ClassifyLine(s: Settings, text: string): (e: LineEffect)
    ensures Contains(text, "#") || Tokens(text) == [] ==> e == Skip
    ensures e.Configure? ==> IsDirective(Tokens(text))
    ensures e.Emit? ==> SettingsOf(e.tc) == s
  {
    if Contains(text, "#") then Skip
    else
      var toks := Tokens(text);
      if toks == [] then Skip
      else if IsDirective(toks) then
        match ApplyDirective(s, toks, text)
        case Ok(s') => Configure(s')
        case Err(e) => Fail(e)
      else ParseCase(s, toks, text)
  }

  /** The parser's state between lines: the current settings and the cases
      emitted so far, or the error that stopped it. */
  datatype ScanState =
    | Scanning(settings: Settings, cases: seq<TestCase>)
    | Stopped(error: ParseError)

  function Advance(st: ScanState, text: string): ScanState {
    match st
    case Stopped(_) => st
    case Scanning(s, cases) =>
      match ClassifyLine(s, text)
      case Skip => st
      case Configure(s') => Scanning(s', cases)
      case Emit(tc) => Scanning(s, cases + [tc])
      case Fail(e) => Stopped(e)
  }

  /** The state after reading `lines` in order. */
  function Scan(lines: seq<string>): ScanState
    decreases |lines|
  {
    if lines == [] then Scanning(InitialSettings, [])
    else Advance(Scan(lines[..|lines| - 1]), lines[|lines| - 1])
  }

  /** What `ParseDecTest` returns for a corpus: every emitted case, or the
      first error and no cases at all. */
  function ParseSpec(lines: seq<string>): Result<seq<TestCase>, ParseError> {
    match Scan(lines)
    case Scanning(_, cases) => Ok(cases)
    case Stopped(e) => Err(e)
  }

  /** Once an error has stopped the scan, later lines change nothing: the
      first error is the one reported. */
  lemma {:induction false} StoppedStays(lines: seq<string>, n: nat)
    requires n <= |lines| && Scan(lines[..n]).Stopped?
    ensures Scan(lines) == Scan(lines[..n])
    decreases |lines| - n
  {
    if n < |lines| {
      assert lines[..n + 1][..n] == lines[..n];
      StoppedStays(lines, n + 1);
    } else {
      assert lines[..n] == lines;
    }
  }

  /** The tokens of one line: split into fields after lower-casing, then
      cut at the first token that opens a `--` comment. */
  method LineTokens(text: string) returns (line: seq<string>)
    ensures line == Tokens(text)
  {
    line := Fields(ToLower(text));
    ghost var all := line;
    var i := 0;
    while i < |line|
      invariant line == all
      invariant 0 <= i <= |line|
      invariant forall j :: 0 <= j < i ==> !HasPrefix(line[j], "--")
    {
      if HasPrefix(line[i], "--") {
        line := line[..i];
        return;
      }
      i := i + 1;
    }
  }

  /** The directive switch: the record `tc` with the directive of `line`
      applied, or the error that rejects the line. */
  method SetDirective(tc: TestCase, line: seq<string>, text: string) returns (r: Result<TestCase, ParseError>)
    requires IsDirective(line)
    ensures r.Ok? <==> ApplyDirective(SettingsOf(tc), line, text).Ok?
    ensures r.Ok? ==> SettingsOf(r.value) == ApplyDirective(SettingsOf(tc), line, text).value
    ensures r.Err? ==> r.error == ApplyDirective(SettingsOf(tc), line, text).error
  {
    if |line| != 2 {
      return Err(DirectiveArity(text));
    }
    var directive := line[0];
    var name := directive[..|directive| - 1];
    if name == "precision" {
      var v := Atoi(line[1]);
      if v.Err? {
        return Err(BadNumber(v.error));
      }
      r := Ok(tc.(precision := v.value));
    } else if name == "maxexponent" {
      var v := Atoi(line[1]);
      if v.Err? {
        return Err(BadNumber(v.error));
      }
      r := Ok(tc.(maxExponent := v.value));
    } else if name == "minexponent" {
      var v := Atoi(line[1]);
      if v.Err? {
        return Err(BadNumber(v.error));
      }
      r := Ok(tc.(minExponent := v.value));
    } else if name == "rounding" {
      r := Ok(tc.(rounding := line[1]));
    } else if name == "version" {
      r := Ok(tc);
    } else if name == "extended" {
      r := Ok(tc.(extended := line[1] == "1"));
    } else if name == "clamp" {
      r := Ok(tc.(clamp := line[1] == "1"));
    } else {
      r := Err(UnsupportedDirective(directive));
    }
  }

  /** The operand loop over the tokens after the operation: collects the
      cleaned operands up to the first `->`, and stops early at an operand
      naming an infinity or a NaN. `arrow` says whether a `->` ended the
      loop with at least one operand collected, Go's `tc.Operands != nil`. */
  method ReadOperands(rest: seq<string>) returns (special: bool, ops: seq<string>, arrow: bool)
    ensures special <==> exists m :: 0 <= m < ArrowIndex(rest) && IsSpecial(rest[m])
    ensures !special ==> ops == CleanNumbers(rest[..ArrowIndex(rest)])
    ensures !special ==> (arrow <==> ArrowIndex(rest) < |rest| && ArrowIndex(rest) > 0)
  {
    ops, arrow := [], false;
    var j := 0;
    while j < |rest|
      invariant 0 <= j <= |rest| && j <= ArrowIndex(rest)
      invariant forall m :: 0 <= m < j ==> !IsSpecial(rest[m])
      invariant |ops| == j && forall m :: 0 <= m < j ==> ops[m] == CleanNumber(rest[m])
    {
      var o := rest[j];
      if o == "->" {
        arrow := ops != [];
        break;
      }
      if IsSpecial(o) {
        return true, ops, false;
      }
      ops := ops + [CleanNumber(o)];
      j := j + 1;
    }
    assert j == ArrowIndex(rest);
    special := false;
  }

  /** A case line: the record `tc` filled in from `line`, and what the line
      does: it is emitted, skipped for an infinite, NaN or negative-zero
      value, or rejected. */
  method ReadCase(tc: TestCase, line: seq<string>, text: string) returns (effect: LineEffect, tc': TestCase)
    ensures effect == ParseCase(SettingsOf(tc), line, text)
    ensures SettingsOf(tc') == SettingsOf(tc)
  {
    tc' := tc;
    if |line| < 5 {
      return Fail(ShortCaseLine(text)), tc';
    }
    tc' := tc'.(id := line[0], operation := line[1], operands := []);
    var rest := line[2..];
    var special, ops, arrow := ReadOperands(rest);
    if special {
      return Skip, tc';
    }
    var k := ArrowIndex(rest);
    if arrow {
      tc' := tc'.(operands := ops);
    }
    if !arrow || |rest| < k + 2 {
      return Fail(BadCaseLine(text)), tc';
    }
    tc' := tc'.(result := ToUpper(CleanNumber(rest[k + 1])));
    if IsNegZero(tc'.result) {
      return Skip, tc';
    }
    tc' := tc'.(conditions := rest[k + 2..]);
    effect := Emit(tc');
  }

  /** One pass of the parser's line loop: a commented or blank line is
      passed over, a directive updates the record's settings, any other
      line is read as a test case. */
  method ReadLine(tc: TestCase, text: string) returns (effect: LineEffect, tc': TestCase)
    ensures effect == ClassifyLine(SettingsOf(tc), text)
    ensures effect.Configure? ==> SettingsOf(tc') == effect.settings
    ensures !effect.Configure? ==> SettingsOf(tc') == SettingsOf(tc)
  {
    tc' := tc;
    if Contains(text, "#") {
      return Skip, tc';
    }
    var line := LineTokens(text);
    if |line| == 0 {
      return Skip, tc';
    }
    if HasSuffix(line[0], ":") {
      var d := SetDirective(tc, line, text);
      if d.Err? {
        return Fail(d.error), tc';
      }
      tc' := d.value;
      effect := Configure(SettingsOf(tc'));
    } else {
      effect, tc' := ReadCase(tc, line, text);
    }
  }

  /** `ParseDecTest`: reads the corpus line by line into one reused record
      whose settings carry over from line to line. */
  method ParseDecTest(lines: seq<string>) returns (r: Result<seq<TestCase>, ParseError>)
    ensures r == ParseSpec(lines)
  {
    var tc := TestCase(0, 0, 0, "", true, false, "", "", [], "", []);
    var res: seq<TestCase> := [];
    var n := 0;
    while n < |lines|
      invariant 0 <= n <= |lines|
      invariant Scan(lines[..n]) == Scanning(SettingsOf(tc), res)
    {
      var text := lines[n];
      ghost var s := SettingsOf(tc);
      assert lines[..n + 1][..n] == lines[..n];
      n := n + 1;
      assert Scan(lines[..n]) == Advance(Scanning(s, res), text);
      var effect;
      effect, tc := ReadLine(tc, text);
      match effect
      case Fail(e) =>
        StoppedStays(lines, n);
        return Err(e);
      case Emit(c) =>
        res := res + [c];
      case _ =>
    }
    assert lines[..n] == lines;
    r := Ok(res);
  }
}
