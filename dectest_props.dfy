/** What the decTest parser promises: the quoting convention it undoes,
    the negative-zero pattern it filters, the meaning of a single line, and
    the shape, order and settings of the cases it returns for a corpus. */
module DecTestProperties {
  import opened Results
  import opened GoStrings
  import opened DecTest

  // ---------------------------------------------------------------------
  // Quoted operands

  /** The corpus's quoting convention: every quote character inside a
      quoted literal is written twice. */
  function Escape(s: string, q: char): string
    decreases |s|
  {
    if s == [] then []
    else if s[0] == q then [q, q] + Escape(s[1..], q)
    else [s[0]] + Escape(s[1..], q)
  }

  /** Un-doubling the quotes undoes doubling them. */
  lemma {:induction false} UnescapeEscape(s: string, q: char)
    ensures Unescape(Escape(s, q), q) == s
    decreases |s|
  {
    if s != [] {
      UnescapeEscape(s[1..], q);
      var e := Escape(s, q);
      if s[0] == q {
        assert e[2..] == Escape(s[1..], q);
      } else {
        assert e[1..] == Escape(s[1..], q);
      }
    }
  }

  /** `cleanNumber` reads back any text written as a quoted literal, with
      either quote character. */
  lemma CleanNumberOfQuoted(s: string, q: char)
    requires q == '\'' || q == '"'
    ensures CleanNumber([q] + Escape(s, q) + [q]) == s
  {
    var t := [q] + Escape(s, q) + [q];
    assert t[1..|t| - 1] == Escape(s, q);
    UnescapeEscape(s, q);
  }

  /** Every character of `a` occurs in `b`. */
  predicate CharsFrom(a: string, b: string) {
    forall i :: 0 <= i < |a| ==> a[i] in b
  }

  lemma {:induction false} UnescapeCharsFrom(s: string, q: char)
    ensures CharsFrom(Unescape(s, q), s)
    decreases |s|
  {
    if s == [] {
    } else if |s| >= 2 && s[0] == q && s[1] == q {
      UnescapeCharsFrom(s[2..], q);
      var u := Unescape(s, q);
      forall i | 0 <= i < |u| ensures u[i] in s {
        if i > 0 {
          assert u[i] == Unescape(s[2..], q)[i - 1];
          var j :| 0 <= j < |s[2..]| && s[2..][j] == u[i];
          assert s[j + 2] == u[i];
        }
      }
    } else {
      UnescapeCharsFrom(s[1..], q);
      var u := Unescape(s, q);
      forall i | 0 <= i < |u| ensures u[i] in s {
        if i > 0 {
          assert u[i] == Unescape(s[1..], q)[i - 1];
          var j :| 0 <= j < |s[1..]| && s[1..][j] == u[i];
          assert s[j + 1] == u[i];
        }
      }
    }
  }

  /** `cleanNumber` only removes characters: it never introduces one. */
  lemma CleanNumberCharsFrom(t: string)
    ensures CharsFrom(CleanNumber(t), t)
  {
    if IsEnclosedIn(t, '\'') || IsEnclosedIn(t, '"') {
      var q := if IsEnclosedIn(t, '\'') then '\'' else '"';
      var inner := t[1..|t| - 1];
      UnescapeCharsFrom(inner, q);
      forall i | 0 <= i < |CleanNumber(t)| ensures CleanNumber(t)[i] in t {
        var j :| 0 <= j < |inner| && inner[j] == CleanNumber(t)[i];
        assert t[j + 1] == inner[j];
      }
    }
  }

  lemma {:induction false} UnescapePrefix(s: string, q: char, w: string)
    requires q !in w
    requires HasPrefix(Unescape(s, q), w)
    ensures HasPrefix(s, w)
    decreases |s|
  {
    if w != [] && s != [] {
      assert Unescape(s, q)[0] == w[0] && w[0] in w;
      assert !(|s| >= 2 && s[..2] == [q, q]);
      {
        var u := Unescape(s, q);
        assert u[1..] == Unescape(s[1..], q);
        assert HasPrefix(u[1..], w[1..]) by {
          assert u[1..][..|w| - 1] == u[..|w|][1..];
        }
        UnescapePrefix(s[1..], q, w[1..]);
        assert s[..|w|] == [s[0]] + s[1..][..|w| - 1];
      }
    }
  }

  /** Un-doubling quotes cannot join characters into a quote-free word that
      was not already there. */
  lemma {:induction false} UnescapeContains(s: string, q: char, w: string)
    requires q !in w
    requires Contains(Unescape(s, q), w)
    ensures Contains(s, w)
    decreases |s|
  {
    var u := Unescape(s, q);
    if HasPrefix(u, w) {
      UnescapePrefix(s, q, w);
    } else if |s| >= 2 && s[0] == q && s[1] == q {
      assert u[1..] == Unescape(s[2..], q);
      UnescapeContains(s[2..], q, w);
      assert s[1..][1..] == s[2..];
      assert Contains(s[1..], w);
    } else {
      assert s != [];
      assert u[1..] == Unescape(s[1..], q);
      UnescapeContains(s[1..], q, w);
    }
  }

  lemma {:induction false} InnerContains(t: string, w: string)
    requires |t| >= 2 && Contains(t[1..|t| - 1], w)
    ensures Contains(t, w)
  {
    ContainsIffOccurs(t[1..|t| - 1], w);
    var i :| OccursAt(t[1..|t| - 1], w, i);
    var u := t[1..|t| - 1];
    assert t[i + 1..i + 1 + |w|] == w by {
      forall m | 0 <= m < |w| ensures t[i + 1..i + 1 + |w|][m] == w[m] {
        assert w[m] == u[i..i + |w|][m] == u[i + m] == t[i + 1 + m];
      }
    }
    assert OccursAt(t, w, i + 1);
    ContainsIffOccurs(t, w);
  }

  /** A quote-free word found in a cleaned token was in the raw token. */
  lemma CleanNumberContains(t: string, w: string)
    requires '\'' !in w && '"' !in w
    requires Contains(CleanNumber(t), w)
    ensures Contains(t, w)
  {
    if IsEnclosedIn(t, '\'') {
      UnescapeContains(t[1..|t| - 1], '\'', w);
      InnerContains(t, w);
    } else if IsEnclosedIn(t, '"') {
      UnescapeContains(t[1..|t| - 1], '"', w);
      InnerContains(t, w);
    }
  }

  // ---------------------------------------------------------------------
  // Negative zero

  /** The text `-0`, then `.` and `n` zeros when `n > 0`, then `x`. */
  function NegZeroText(n: nat, x: string): string {
    "-0" + (if n == 0 then "" else "." + Zeros(n)) + x
  }

  lemma ZeroRunOfZeros(n: nat, x: string)
    requires ExponentPart(x)
    ensures ZeroRun(Zeros(n) + x) == n
    ensures (Zeros(n) + x)[n..] == x
  {
    var t := Zeros(n) + x;
    assert n < |t| ==> t[n] == 'E';
  }

  lemma NegZeroTextMatches(n: nat, x: string)
    requires ExponentPart(x)
    ensures IsNegZero(NegZeroText(n, x))
  {
    var s := NegZeroText(n, x);
    assert s[..2] == "-0";
    if n == 0 {
      assert s[2..] == x;
    } else {
      var t := s[2..];
      assert t == "." + (Zeros(n) + x);
      assert t[1..] == Zeros(n) + x;
      ZeroRunOfZeros(n, x);
    }
  }

  lemma NegZeroHasText(s: string)
    requires IsNegZero(s)
    ensures exists n: nat, x :: NegZeroText(n, x) == s && ExponentPart(x)
  {
    var t := s[2..];
    assert s == "-0" + t;
    if ExponentPart(t) {
      assert NegZeroText(0, t) == s;
    } else {
      var z := ZeroRun(t[1..]);
      var x := t[1..][z..];
      assert t[1..][..z] == Zeros(z);
      assert t == "." + Zeros(z) + x;
      assert NegZeroText(z, x) == s;
    }
  }

  /** The left-to-right check accepts exactly the language of
      `^-0(\.0+)?(E.*)?$`. */
  lemma NegZeroMatchesRegex(s: string)
    ensures IsNegZero(s) <==> exists n: nat, x :: NegZeroText(n, x) == s && ExponentPart(x)
  {
    if IsNegZero(s) {
      NegZeroHasText(s);
    }
    if n: nat, x :| NegZeroText(n, x) == s && ExponentPart(x) {
      NegZeroTextMatches(n, x);
    }
  }

  // ---------------------------------------------------------------------
  // One line

  /** A case as every emitted case is: named, with at least one operand,
      no operand marking an infinity, a NaN or the null value, and a result
      that is neither negative zero nor null. */
  predicate WellFormedCase(c: TestCase) {
    c.id != [] && !HasSuffix(c.id, ":") && c.operation != []
    && |c.operands| >= 1
    && (forall o :: o in c.operands ==> NoUpper(o) && !Contains(o, "inf") && !Contains(o, "nan"))
    && !IsNegZero(c.result)
    && !HasNull(c)
  }

  lemma CharAbsent(s: string, c: char)
    requires !Contains(s, [c])
    ensures c !in s
  {
    ContainsIffOccurs(s, [c]);
    forall i | 0 <= i < |s| ensures s[i] != c {
      assert s[i..i + 1] == [s[i]];
    }
  }

  /** The tokens of a line without `#` are non-empty, hold no upper-case
      letter and no `#`. */
  lemma TokensChars(text: string)
    requires !Contains(text, "#")
    ensures forall t :: t in Tokens(text) ==> t != [] && NoUpper(t) && '#' !in t
  {
    CharAbsent(text, '#');
    var lower := ToLower(text);
    ToLowerFixes(text);
    forall i | 0 <= i < |lower| ensures lower[i] != '#' {
      assert text[i] in text;
    }
    var f := Fields(lower);
    FieldsAreFields(lower);
    forall t | t in Tokens(text) ensures t != [] && NoUpper(t) && '#' !in t {
      assert t in f;
      assert IsFieldOf(t, lower);
    }
  }

  lemma OperandWellFormed(t: string)
    requires NoUpper(t) && '#' !in t && !IsSpecial(t)
    ensures var o := CleanNumber(t); NoUpper(o) && !Contains(o, "inf") && !Contains(o, "nan") && o != "#"
  {
    ToLowerFixes(t);
    assert ToLower(t) == t;
    CleanNumberCharsFrom(t);
    var o := CleanNumber(t);
    assert '\'' !in "inf" && '"' !in "inf";
    assert '\'' !in "nan" && '"' !in "nan";
    if |o| == 1 {
      assert o[0] in t;
    }
    if Contains(o, "inf") {
      CleanNumberContains(t, "inf");
    }
    if Contains(o, "nan") {
      CleanNumberContains(t, "nan");
    }
  }

  /** A line without `#` whose tokens open with something other than a
      directive is read as a case line. */
  lemma ClassifyCaseLine(s: Settings, text: string)
    requires !Contains(text, "#") && Tokens(text) != [] && !IsDirective(Tokens(text))
    ensures ClassifyLine(s, text) == ParseCase(s, Tokens(text), text)
  {
  }

  /** A case line that emits a case takes its fields from the line's tokens
      in order, and the settings from those in force: operands before the
      first `->`, the result right after it, the conditions after that. */
  lemma ParseCaseShape(s: Settings, toks: seq<string>, text: string)
    requires ParseCase(s, toks, text).Emit?
    ensures var c := ParseCase(s, toks, text).tc;
      SettingsOf(c) == s
      && var k := ArrowIndex(toks[2..]);
         0 < k && 2 + k + 1 < |toks| && toks[2 + k] == "->"
         && (forall o :: o in toks[2..2 + k] ==> !IsSpecial(o))
         && c.id == toks[0] && c.operation == toks[1]
         && c.operands == CleanNumbers(toks[2..2 + k])
         && c.result == ToUpper(CleanNumber(toks[2 + k + 1]))
         && !IsNegZero(c.result)
         && c.conditions == toks[2 + k + 2..]
  {
    var rest := toks[2..];
    var k := ArrowIndex(rest);
    assert rest[..k] == toks[2..2 + k];
  }

  /** A case line that emits a case emits a well-formed one. */
  lemma ParseCaseEmits(s: Settings, toks: seq<string>, text: string)
    requires ParseCase(s, toks, text).Emit? && !IsDirective(toks)
    requires forall t :: t in toks ==> t != [] && NoUpper(t) && '#' !in t
    ensures WellFormedCase(ParseCase(s, toks, text).tc)
  {
    ParseCaseShape(s, toks, text);
    var c := ParseCase(s, toks, text).tc;
    var k := ArrowIndex(toks[2..]);
    forall o | o in c.operands
      ensures NoUpper(o) && !Contains(o, "inf") && !Contains(o, "nan") && o != "#"
    {
      var j :| 0 <= j < k && c.operands[j] == o;
      var t := toks[2..2 + k][j];
      assert t in toks[2..2 + k] && t in toks;
      OperandWellFormed(t);
    }
    var raw := CleanNumber(toks[2 + k + 1]);
    assert toks[2 + k + 1] in toks;
    CleanNumberCharsFrom(toks[2 + k + 1]);
    assert '#' !in raw;
    assert c.result != "#" by {
      if |raw| == 1 {
        assert c.result[0] == UpperChar(raw[0]) && raw[0] in raw;
      }
    }
    assert "#" !in c.operands;
    assert toks[0] in toks && toks[1] in toks;
  }

  /** Every case a line emits is well formed and carries the settings in
      force when the line is read. */
  lemma EmittedCase(s: Settings, text: string)
    requires ClassifyLine(s, text).Emit?
    ensures WellFormedCase(ClassifyLine(s, text).tc) && SettingsOf(ClassifyLine(s, text).tc) == s
  {
    ClassifyCaseLine(s, text);
    TokensChars(text);
    ParseCaseShape(s, Tokens(text), text);
    ParseCaseEmits(s, Tokens(text), text);
  }

  /** A line containing `#`, or holding nothing but white space and
      comment, leaves the parse exactly as it was. */
  lemma SkippedLine(lines: seq<string>, text: string)
    requires Contains(text, "#") || Tokens(text) == []
    ensures Scan(lines + [text]) == Scan(lines)
  {
    assert (lines + [text])[..|lines|] == lines;
  }

  /** A token that neither holds `#` nor opens a `--` comment. */
  predicate IsPlainToken(t: string) {
    '#' !in t && !HasPrefix(t, "--")
  }

  lemma {:induction false} LaidHashFree(gaps: seq<string>, ws: seq<string>, trail: string)
    requires IsLayout(gaps, ws, trail)
    requires forall w :: w in ws ==> '#' !in w
    ensures '#' !in Laid(gaps, ws, trail)
    decreases |ws|
  {
    assert !IsSpace('#');
    if ws != [] {
      LayoutTail(gaps, ws, trail);
      assert forall w :: w in ws[1..] ==> w in ws;
      LaidHashFree(gaps[1..], ws[1..], trail);
      assert ws[0] in ws;
      assert IsBlank(gaps[0]);
    }
  }

  /** The tokens of a line are its words, lower-cased, however the line
      spaces them out: leading, trailing and repeated white space of any
      kind and capital letters make no difference. */
  lemma TokensOfLine(text: string, gaps: seq<string>, ws: seq<string>, trail: string)
    requires IsLayout(gaps, ws, trail) && ToLower(text) == Laid(gaps, ws, trail)
    requires forall w :: w in ws ==> IsPlainToken(w)
    ensures Tokens(text) == ws
    ensures !Contains(text, "#")
  {
    FieldsOfLayout(gaps, ws, trail);
    NoCommentToken(ws);
    assert ws[..|ws|] == ws;
    LaidHashFree(gaps, ws, trail);
    forall i | 0 <= i < |text| ensures text[i] != '#' {
      assert ToLower(text)[i] == LowerChar(text[i]);
      assert ToLower(text)[i] in Laid(gaps, ws, trail);
    }
    HashFree(text);
  }

  lemma NoCommentToken(ws: seq<string>)
    requires forall w :: w in ws ==> !HasPrefix(w, "--")
    ensures CommentStart(ws) == |ws|
  {
    assert forall k :: 0 <= k < |ws| ==> ws[k] in ws;
  }

  lemma HashFree(text: string)
    requires '#' !in text
    ensures !Contains(text, "#")
  {
    ContainsIffOccurs(text, "#");
    assert forall i :: OccursAt(text, "#", i) ==> text[i] == '#';
  }

  /** What a directive line `name: value` does, for each directive name
      (the name as lower-cased), however the line is spaced and
      capitalised. */
  lemma DirectiveLine(s: Settings, text: string, gaps: seq<string>, trail: string,
                      name: string, value: string)
    requires IsLayout(gaps, [name + ":", value], trail)
    requires ToLower(text) == Laid(gaps, [name + ":", value], trail)
    requires IsPlainToken(name + ":") && IsPlainToken(value)
    ensures var e := ClassifyLine(s, text);
      (name == "extended" ==> e == Configure(s.(extended := value == "1")))
      && (name == "clamp" ==> e == Configure(s.(clamp := value == "1")))
      && (name == "rounding" ==> e == Configure(s.(rounding := value)))
      && (name == "version" ==> e == Configure(s))
      && (name == "precision" ==>
            e == if Atoi(value).Ok? then Configure(s.(precision := Atoi(value).value))
                 else Fail(BadNumber(value)))
      && (name == "maxexponent" ==>
            e == if Atoi(value).Ok? then Configure(s.(maxExponent := Atoi(value).value))
                 else Fail(BadNumber(value)))
      && (name == "minexponent" ==>
            e == if Atoi(value).Ok? then Configure(s.(minExponent := Atoi(value).value))
                 else Fail(BadNumber(value)))
      && (name !in {"precision", "maxexponent", "minexponent", "rounding", "version", "extended", "clamp"} ==>
            e == Fail(UnsupportedDirective(name + ":")))
  {
    TokensOfLine(text, gaps, [name + ":", value], trail);
    var d := name + ":";
    assert HasSuffix(d, ":") && d[..|d| - 1] == name;
  }

  lemma MaxExponentLowered()
    ensures ToLower("maxExponent: 384") == "maxexponent:" + " 384"
  {
  }

  lemma MaxExponentLaidOut()
    ensures Laid(["", " "], ["maxexponent:", "384"], "") == "maxexponent:" + " 384"
  {
    assert Laid([" "], ["384"], "") == " 384";
  }

  lemma MaxExponentTokensPlain()
    ensures IsLayout(["", " "], ["maxexponent:", "384"], "")
    ensures IsPlainToken("maxexponent:") && IsPlainToken("384")
  {
    assert "maxexponent:"[1] != '-' && "384"[0] != '-';
    assert forall i :: 0 <= i < 12 ==> "maxexponent:"[i] != '#';
  }

  lemma AtoiOf384()
    ensures Atoi("384") == Ok(384)
  {
    AtoiOfSplit("", "384");
    assert "" + "384" == "384";
    assert "384"[..2] == "38" && "38"[..1] == "3" && "3"[..0] == "";
    assert DigitsValue("384") == 384;
  }

  /** A directive as a corpus writes it, with a capital letter in its
      name. */
  lemma MaxExponentDirective(text: string)
    requires text == "maxExponent: 384"
    ensures ClassifyLine(InitialSettings, text) == Configure(InitialSettings.(maxExponent := 384))
  {
    MaxExponentLowered();
    MaxExponentLaidOut();
    MaxExponentTokensPlain();
    assert "maxexponent" + ":" == "maxexponent:";
    AtoiOf384();
    DirectiveLine(InitialSettings, text, ["", " "], "", "maxexponent", "384");
  }

  /** A directive line fails unless it has exactly two tokens. */
  lemma DirectiveArityFails(s: Settings, text: string)
    requires !Contains(text, "#") && IsDirective(Tokens(text)) && |Tokens(text)| != 2
    ensures ClassifyLine(s, text) == Fail(DirectiveArity(text))
  {
  }

  /** A case line with fewer than five tokens fails. */
  lemma ShortCaseLineFails(s: Settings, toks: seq<string>, text: string)
    requires |toks| < 5
    ensures ParseCase(s, toks, text) == Fail(ShortCaseLine(text))
  {
  }

  /** When no operand before the first `->` marks an infinity or a NaN, a
      case line fails exactly when it has no `->`, no operand before it, or
      no result after it. */
  lemma BadCaseLineFails(s: Settings, toks: seq<string>, text: string)
    requires |toks| >= 5
    requires forall j :: 2 <= j < |toks| && "->" !in toks[2..j] ==> !IsSpecial(toks[j])
    ensures ("->" !in toks[2..] || toks[2] == "->" || (toks[|toks| - 1] == "->" && "->" !in toks[2..|toks| - 1]))
            <==> ParseCase(s, toks, text) == Fail(BadCaseLine(text))
  {
    var rest := toks[2..];
    var k := ArrowIndex(rest);
    assert forall j :: 0 <= j < k ==> rest[..j] == toks[2..j + 2] && "->" !in rest[..j];
    assert forall j :: 0 <= j < k ==> !IsSpecial(rest[j]);
    if "->" !in rest {
      assert k == |rest|;
    } else if k + 1 == |rest| {
      assert toks[|toks| - 1] == "->";
      assert toks[2..|toks| - 1] == rest[..k];
    }
    if toks[|toks| - 1] == "->" && "->" !in toks[2..|toks| - 1] {
      assert toks[2..|toks| - 1] == rest[..|rest| - 1];
      assert k == |rest| - 1;
    }
  }

  lemma {:induction false} ShortTextContainsNothingLonger(s: string, w: string)
    requires |w| > |s|
    ensures !Contains(s, w)
    decreases |s|
  {
    if s != [] {
      ShortTextContainsNothingLonger(s[1..], w);
    }
  }

  /** An operand marking an infinity or a NaN before the first `->` makes
      the parser skip the line, even a line it would otherwise reject. */
  lemma SpecialOperandSkipsLine(s: Settings, toks: seq<string>, text: string, j: nat)
    requires |toks| >= 5 && 2 <= j < |toks| && IsSpecial(toks[j]) && "->" !in toks[2..j]
    ensures ParseCase(s, toks, text) == Skip
  {
    ShortTextContainsNothingLonger(ToLower("->"), "inf");
    ShortTextContainsNothingLonger(ToLower("->"), "nan");
    assert toks[j] != "->";
    var rest := toks[2..];
    forall m | 0 <= m < j - 2 ensures rest[m] != "->" {
      assert rest[m] == toks[2..j][m] && toks[2..j][m] in toks[2..j];
    }
    assert rest[j - 2] == toks[j];
    assert ArrowIndex(rest) > j - 2;
  }

  /** Operands free of `->`, then `->`, then the result and conditions: the
      first `->` comes right after the operands. */
  lemma SplitAtArrow(operands: seq<string>, result: string, conditions: seq<string>)
    requires forall o :: o in operands ==> o != "->"
    ensures var rest := operands + ["->", result] + conditions;
      ArrowIndex(rest) == |operands| && rest[..|operands|] == operands
      && rest[|operands| + 1] == result && rest[|operands| + 2..] == conditions
  {
    var rest := operands + ["->", result] + conditions;
    var k := |operands|;
    assert rest[k] == "->";
    forall j | 0 <= j < k ensures rest[j] != "->" {
      assert rest[j] == operands[j] && operands[j] in operands;
    }
    assert rest[..k] == operands;
    assert rest[k + 2..] == conditions;
  }

  /** The case read from the tokens `id op operand... -> result
      condition...`: operands cleaned, result cleaned and upper-cased,
      conditions as written, settings as in force. */
  lemma ParseCaseOfParts(s: Settings, id: string, op: string, operands: seq<string>,
                         result: string, conditions: seq<string>, text: string)
    requires |operands| >= 1
    requires forall o :: o in operands ==> o != "->" && !IsSpecial(o)
    requires !IsNegZero(ToUpper(CleanNumber(result)))
    ensures ParseCase(s, [id, op] + operands + ["->", result] + conditions, text)
         == Emit(TestCase(s.precision, s.maxExponent, s.minExponent, s.rounding, s.extended, s.clamp,
                          id, op, CleanNumbers(operands), ToUpper(CleanNumber(result)), conditions))
  {
    var rest := operands + ["->", result] + conditions;
    var toks := [id, op] + operands + ["->", result] + conditions;
    assert toks == [id, op] + rest;
    assert toks[2..] == rest;
    SplitAtArrow(operands, result, conditions);
    forall j | 0 <= j < |operands| ensures !IsSpecial(rest[j]) {
      assert rest[j] == operands[j] && operands[j] in operands;
    }
  }

  /** Reading a case line gives the case its tokens spell, however the line
      is spaced and capitalised. */
  lemma CaseLineRoundTrip(s: Settings, text: string, gaps: seq<string>, trail: string,
                          id: string, op: string, operands: seq<string>,
                          result: string, conditions: seq<string>)
    requires var toks := [id, op] + operands + ["->", result] + conditions;
      IsLayout(gaps, toks, trail) && ToLower(text) == Laid(gaps, toks, trail)
    requires IsPlainToken(id) && !HasSuffix(id, ":") && IsPlainToken(op) && IsPlainToken(result)
    requires |operands| >= 1
    requires forall o :: o in operands ==> IsPlainToken(o) && o != "->" && !IsSpecial(o)
    requires forall c :: c in conditions ==> IsPlainToken(c)
    requires !IsNegZero(ToUpper(CleanNumber(result)))
    ensures ClassifyLine(s, text)
         == Emit(TestCase(s.precision, s.maxExponent, s.minExponent, s.rounding, s.extended, s.clamp,
                          id, op, CleanNumbers(operands), ToUpper(CleanNumber(result)), conditions))
  {
    var toks := [id, op] + operands + ["->", result] + conditions;
    assert IsPlainToken("->") by {
      assert "->"[1] != '-';
    }
    forall w | w in toks ensures IsPlainToken(w) {
      if w !in [id, op] && w !in operands && w !in ["->", result] {
        assert w in conditions;
      }
    }
    TokensOfLine(text, gaps, toks, trail);
    assert !IsDirective(toks);
    ClassifyCaseLine(s, text);
    ParseCaseOfParts(s, id, op, operands, result, conditions, text);
  }

  lemma CaseLowered()
    ensures ToLower("ADDX1  add 1\t2 -> 3 ") == "addx1" + "  add 1\t2 -> 3 "
  {
  }

  lemma OperandsLaidOut()
    ensures Laid([" ", "\t", " ", " "], ["1", "2", "->", "3"], " ") == " 1\t2 -> 3 "
  {
    assert Laid([], [], " ") == " ";
    assert Laid([" "], ["3"], " ") == " 3 ";
    assert Laid([" ", " "], ["->", "3"], " ") == " -> 3 ";
    assert Laid(["\t", " ", " "], ["2", "->", "3"], " ") == "\t2 -> 3 ";
  }

  lemma OperationLaidOut()
    ensures Laid(["  ", " ", "\t", " ", " "], ["add", "1", "2", "->", "3"], " ") == "  add 1\t2 -> 3 "
  {
    OperandsLaidOut();
  }

  lemma CaseLaidOut()
    ensures Laid(["", "  ", " ", "\t", " ", " "], ["addx1", "add", "1", "2", "->", "3"], " ")
         == "addx1" + "  add 1\t2 -> 3 "
  {
    OperationLaidOut();
  }

  lemma CaseIsLayout()
    ensures IsLayout(["", "  ", " ", "\t", " ", " "], ["addx1", "add", "1", "2", "->", "3"], " ")
  {
  }

  lemma CaseTokensPlain()
    ensures IsPlainToken("addx1") && !HasSuffix("addx1", ":") && IsPlainToken("add") && IsPlainToken("3")
    ensures forall o :: o in ["1", "2"] ==> IsPlainToken(o) && o != "->" && !IsSpecial(o)
    ensures CleanNumbers(["1", "2"]) == ["1", "2"]
    ensures ToUpper(CleanNumber("3")) == "3" && !IsNegZero("3")
  {
    forall o | o in ["1", "2"] ensures !IsSpecial(o) {
      ShortTextContainsNothingLonger(ToLower(o), "inf");
      ShortTextContainsNothingLonger(ToLower(o), "nan");
    }
    assert "addx1"[0] != '-' && "add"[0] != '-' && "addx1"[4] != ':';
    assert forall i :: 0 <= i < 5 ==> "addx1"[i] != '#';
  }

  /** A case line as a corpus writes it: capitals, and runs of spaces and
      tabs between and after the tokens. */
  lemma MixedCaseLine(s: Settings, text: string)
    requires text == "ADDX1  add 1\t2 -> 3 "
    ensures ClassifyLine(s, text)
         == Emit(TestCase(s.precision, s.maxExponent, s.minExponent, s.rounding, s.extended, s.clamp,
                          "addx1", "add", ["1", "2"], "3", []))
  {
    var gaps := ["", "  ", " ", "\t", " ", " "];
    var ws := ["addx1", "add", "1", "2", "->", "3"];
    CaseLowered();
    CaseLaidOut();
    CaseIsLayout();
    assert ws == ["addx1", "add"] + ["1", "2"] + ["->", "3"] + [];
    CaseTokensPlain();
    CaseLineRoundTrip(s, text, gaps, " ", "addx1", "add", ["1", "2"], "3", []);
  }

  // ---------------------------------------------------------------------
  // A whole corpus

  lemma SplitLast(a: seq<string>, b: seq<string>)
    requires b != []
    ensures a + b == (a + b[..|b| - 1]) + [b[|b| - 1]]
  {
    assert b == b[..|b| - 1] + [b[|b| - 1]];
  }

  lemma InitLast(lines: seq<string>)
    requires lines != []
    ensures lines == lines[..|lines| - 1] + [lines[|lines| - 1]]
  {
  }

  lemma EmptyThen(lines: seq<string>)
    ensures [] + lines == lines
  {
  }

  lemma ScanAppend(lines: seq<string>, text: string)
    ensures Scan(lines + [text]) == Advance(Scan(lines), text)
  {
    assert (lines + [text])[..|lines|] == lines;
  }

  /** Every case in `cases` is well formed and free of the null value. */
  predicate AllWellFormed(cases: seq<TestCase>) {
    forall c :: c in cases ==> WellFormedCase(c) && !HasNull(c)
  }

  /** Reading one more line keeps every case well formed. */
  lemma AdvanceKeepsWellFormed(st: ScanState, text: string)
    requires st.Scanning? && Advance(st, text).Scanning? && AllWellFormed(st.cases)
    ensures AllWellFormed(Advance(st, text).cases)
  {
    if ClassifyLine(st.settings, text).Emit? {
      EmittedCase(st.settings, text);
    }
  }

  /** Every case the parser returns is well formed; in particular none has
      the null value, so `HasNull` is false on all of them. */
  lemma {:induction false} ParsedCasesWellFormed(lines: seq<string>)
    requires ParseSpec(lines).Ok?
    ensures forall c :: c in ParseSpec(lines).value ==> WellFormedCase(c) && !HasNull(c)
    decreases |lines|
  {
    if lines != [] {
      var init := lines[..|lines| - 1];
      var text := lines[|lines| - 1];
      InitLast(lines);
      ScanAppend(init, text);
      assert Scan(init).Scanning?;
      ParsedCasesWellFormed(init);
      AdvanceKeepsWellFormed(Scan(init), text);
    }
  }

  /** `StoppedStays` for a corpus split into the part that stopped the
      parse and whatever follows it. */
  lemma StoppedIsFinal(a: seq<string>, b: seq<string>)
    requires Scan(a).Stopped?
    ensures Scan(a + b) == Scan(a)
  {
    assert (a + b)[..|a|] == a;
    StoppedStays(a + b, |a|);
  }

  /** One line appends at most one case, and a stopped scan stays stopped. */
  lemma AdvanceAppends(st: ScanState, text: string)
    requires Advance(st, text).Scanning?
    ensures st.Scanning? && st.cases <= Advance(st, text).cases
    ensures |Advance(st, text).cases| <= |st.cases| + 1
  {
  }

  /** Reading more lines only appends cases, in input order, at most one
      per line. */
  lemma {:induction false} OutputGrowsInOrder(a: seq<string>, b: seq<string>)
    requires Scan(a + b).Scanning?
    ensures Scan(a).Scanning?
    ensures Scan(a).cases <= Scan(a + b).cases
    ensures |Scan(a + b).cases| <= |Scan(a).cases| + |b|
    decreases |b|
  {
    if b == [] {
      assert a + b == a;
    } else {
      var b' := b[..|b| - 1];
      SplitLast(a, b);
      ScanAppend(a + b', b[|b| - 1]);
      AdvanceAppends(Scan(a + b'), b[|b| - 1]);
      OutputGrowsInOrder(a, b');
    }
  }

  /** The parse returns at most one case per line. */
  lemma AtMostOneCasePerLine(lines: seq<string>)
    requires ParseSpec(lines).Ok?
    ensures |ParseSpec(lines).value| <= |lines|
  {
    EmptyThen(lines);
    OutputGrowsInOrder([], lines);
  }

  /** A line that the parser reads as a directive. */
  predicate IsDirectiveLine(text: string) {
    !Contains(text, "#") && IsDirective(Tokens(text))
  }

  /** A line that holds no directive keeps the settings, and adds at most
      one case, which carries them. */
  lemma AdvanceWithoutDirective(st: ScanState, text: string)
    requires st.Scanning? && Advance(st, text).Scanning? && !IsDirectiveLine(text)
    ensures Advance(st, text).settings == st.settings
    ensures st.cases <= Advance(st, text).cases
    ensures |Advance(st, text).cases| <= |st.cases| + 1
    ensures forall i :: |st.cases| <= i < |Advance(st, text).cases| ==>
              SettingsOf(Advance(st, text).cases[i]) == st.settings
  {
    NonDirectiveLine(st.settings, text);
    var e := ClassifyLine(st.settings, text);
    if e.Emit? {
      EmittedCase(st.settings, text);
    }
  }

  /** Only a directive line changes the settings. */
  lemma NonDirectiveLine(s: Settings, text: string)
    requires !IsDirectiveLine(text)
    ensures !ClassifyLine(s, text).Configure?
  {
  }

  /** The settings `st0` are still in force after `text`, and carried by
      every case emitted since. */
  predicate StillInForce(st0: ScanState, st: ScanState)
    requires st0.Scanning? && st.Scanning?
  {
    st0.cases <= st.cases && st.settings == st0.settings
    && forall i :: |st0.cases| <= i < |st.cases| ==> SettingsOf(st.cases[i]) == st0.settings
  }

  lemma StillInForceAfter(st0: ScanState, st: ScanState, text: string)
    requires st0.Scanning? && st.Scanning? && StillInForce(st0, st)
    requires Advance(st, text).Scanning? && !IsDirectiveLine(text)
    ensures StillInForce(st0, Advance(st, text))
  {
    AdvanceWithoutDirective(st, text);
  }

  /** No line of `b` is a directive. */
  predicate NoDirectives(b: seq<string>) {
    forall j :: 0 <= j < |b| ==> !IsDirectiveLine(b[j])
  }

  /** Settings persist: across lines that hold no directive, the settings
      stay as they were and every case emitted there carries them. */
  lemma {:induction false} SettingsPersist(a: seq<string>, b: seq<string>)
    requires Scan(a + b).Scanning? && NoDirectives(b)
    ensures Scan(a).Scanning? && StillInForce(Scan(a), Scan(a + b))
    decreases |b|
  {
    if b == [] {
      assert a + b == a;
    } else {
      var b' := b[..|b| - 1];
      var text := b[|b| - 1];
      SplitLast(a, b);
      ScanAppend(a + b', text);
      assert Scan(a + b').Scanning?;
      assert NoDirectives(b');
      SettingsPersist(a, b');
      StillInForceAfter(Scan(a), Scan(a + b'), text);
    }
  }

  /** Settings still in force since the start of the scan are the starting
      settings, on every case. */
  lemma InForceFromStart(st: ScanState)
    requires st.Scanning? && StillInForce(Scanning(InitialSettings, []), st)
    ensures st.settings == InitialSettings
    ensures forall c :: c in st.cases ==> SettingsOf(c) == InitialSettings
  {
    forall c | c in st.cases ensures SettingsOf(c) == InitialSettings {
      var i :| 0 <= i < |st.cases| && st.cases[i] == c;
    }
  }

  /** Before the first directive every case runs with the starting settings:
      extended arithmetic, no clamping, and zero or empty everything else. */
  lemma DefaultSettings(lines: seq<string>)
    requires Scan(lines).Scanning? && NoDirectives(lines)
    ensures Scan(lines).settings == InitialSettings
    ensures forall c :: c in Scan(lines).cases ==> SettingsOf(c) == InitialSettings
  {
    EmptyThen(lines);
    SettingsPersist([], lines);
    InForceFromStart(Scan(lines));
  }
}
