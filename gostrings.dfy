/** The pieces of Go's `strings`, `unicode` and `strconv` packages that the
    decTest parser relies on, over strings modelled as sequences of
    characters (one `char` per Unicode code point). */
module GoStrings {
  import opened Results

  /** `unicode.IsSpace`: the Latin-1 white space characters plus the other
      code points with the Unicode White_Space property. */
  predicate IsSpace(c: char) {
    c == '\t' || c == '\n' || c == '\U{000B}' || c == '\U{000C}' || c == '\r' || c == ' '
    || c == '\U{0085}' || c == '\U{00A0}' || c == '\U{1680}'
    || ('\U{2000}' <= c <= '\U{200A}')
    || c == '\U{2028}' || c == '\U{2029}' || c == '\U{202F}' || c == '\U{205F}' || c == '\U{3000}'
  }

  predicate IsUpperAscii(c: char) { 'A' <= c <= 'Z' }

  predicate IsLowerAscii(c: char) { 'a' <= c <= 'z' }

  function LowerChar(c: char): char {
    if IsUpperAscii(c) then (c as int + 32) as char else c
  }

  function UpperChar(c: char): char {
    if IsLowerAscii(c) then (c as int - 32) as char else c
  }

  /** `strings.ToLower`, restricted to the ASCII letters. */
  function ToLower(s: string): (r: string)
    ensures |r| == |s|
    ensures forall i :: 0 <= i < |s| ==> r[i] == LowerChar(s[i])
  {
    seq(|s|, i requires 0 <= i < |s| => LowerChar(s[i]))
  }

  /** `strings.ToUpper`, restricted to the ASCII letters. */
  function ToUpper(s: string): (r: string)
    ensures |r| == |s|
    ensures forall i :: 0 <= i < |s| ==> r[i] == UpperChar(s[i])
  {
    seq(|s|, i requires 0 <= i < |s| => UpperChar(s[i]))
  }

  /** No character of `s` is an upper-case ASCII letter. */
  predicate NoUpper(s: string) {
    forall i :: 0 <= i < |s| ==> !IsUpperAscii(s[i])
  }

  /** Lower-casing leaves no upper-case letter behind, and changes nothing
      in a string that has none: `ToLower` is idempotent. */
  lemma ToLowerFixes(s: string)
    ensures NoUpper(ToLower(s))
    ensures NoUpper(s) ==> ToLower(s) == s
    ensures ToLower(ToLower(s)) == ToLower(s)
  {
  }

  /** `strings.HasPrefix`. */
  predicate HasPrefix(s: string, prefix: string): (r: bool)
    ensures r <==> |prefix| <= |s| && forall i :: 0 <= i < |prefix| ==> s[i] == prefix[i]
  {
    |prefix| <= |s| && s[..|prefix|] == prefix
  }

  /** `strings.HasSuffix`. */
  predicate HasSuffix(s: string, suffix: string): (r: bool)
    ensures r <==> |suffix| <= |s| && forall i :: 0 <= i < |suffix| ==> s[|s| - |suffix| + i] == suffix[i]
  {
    |suffix| <= |s| && s[|s| - |suffix|..] == suffix
  }

  /** `sub` occurs in `s` starting at index `i`. */
  predicate OccursAt(s: string, sub: string, i: int) {
    0 <= i && i + |sub| <= |s| && s[i..i + |sub|] == sub
  }

  /** `strings.Contains`, as a left-to-right search. */
  predicate Contains(s: string, sub: string)
    decreases |s|
  {
    HasPrefix(s, sub) || (|s| > 0 && Contains(s[1..], sub))
  }

  /** The search finds `sub` exactly when it occurs somewhere in `s`. */
  lemma {:induction false} ContainsIffOccurs(s: string, sub: string)
    ensures Contains(s, sub) <==> exists i :: OccursAt(s, sub, i)
    decreases |s|
  {
    if HasPrefix(s, sub) {
      assert OccursAt(s, sub, 0);
    } else if |s| > 0 {
      ContainsIffOccurs(s[1..], sub);
      if Contains(s[1..], sub) {
        var i :| OccursAt(s[1..], sub, i);
        assert s[1..][i..i + |sub|] == s[i + 1..i + 1 + |sub|];
        assert OccursAt(s, sub, i + 1);
      }
      if i :| OccursAt(s, sub, i) {
        assert i != 0;
        assert s[1..][i - 1..i - 1 + |sub|] == s[i..i + |sub|];
        assert OccursAt(s[1..], sub, i - 1);
      }
    }
  }

  /** The length of the run of white space that starts `s`. */
  function SpaceSpan(s: string): (n: nat)
    ensures n <= |s|
    ensures forall i :: 0 <= i < n ==> IsSpace(s[i])
    ensures n < |s| ==> !IsSpace(s[n])
    decreases |s|
  {
    if s == [] || !IsSpace(s[0]) then 0 else 1 + SpaceSpan(s[1..])
  }

  /** The length of the run of non-space characters that starts `s`. */
  function WordSpan(s: string): (n: nat)
    ensures n <= |s|
    ensures forall i :: 0 <= i < n ==> !IsSpace(s[i])
    ensures n < |s| ==> IsSpace(s[n])
    decreases |s|
  {
    if s == [] || IsSpace(s[0]) then 0 else 1 + WordSpan(s[1..])
  }

  /** `strings.Fields`: the maximal runs of non-space characters of `s`, in
      order. */
  function Fields(s: string): seq<string>
    decreases |s|
  {
    var a := SpaceSpan(s);
    if a == |s| then []
    else
      var t := s[a..];
      var n := WordSpan(t);
      [t[..n]] + Fields(t[n..])
  }

  /** A field is non-empty, holds no white space, and is made of characters
      of the line it came from. */
  predicate IsFieldOf(w: string, s: string) {
    w != [] && (forall i :: 0 <= i < |w| ==> !IsSpace(w[i]) && w[i] in s)
  }

  lemma FieldOfSuffix(w: string, s: string, k: nat)
    requires k <= |s| && IsFieldOf(w, s[k..])
    ensures IsFieldOf(w, s)
  {
    forall i | 0 <= i < |w| ensures w[i] in s {
      var j :| 0 <= j < |s[k..]| && s[k..][j] == w[i];
      assert s[k + j] == w[i];
    }
  }

  lemma {:induction false} FieldsAreFields(s: string)
    ensures forall w :: w in Fields(s) ==> IsFieldOf(w, s)
    decreases |s|
  {
    var a := SpaceSpan(s);
    if a < |s| {
      var t := s[a..];
      var n := WordSpan(t);
      assert t[n..] == s[a + n..];
      FieldsAreFields(t[n..]);
      forall w | w in Fields(s) ensures IsFieldOf(w, s) {
        if w == t[..n] {
          assert forall i :: 0 <= i < |w| ==> w[i] == s[a + i];
        } else {
          assert w in Fields(t[n..]);
          FieldOfSuffix(w, s, a + n);
        }
      }
    }
  }

  /** A word: non-empty and free of white space. */
  predicate IsWord(w: string) {
    w != [] && forall i :: 0 <= i < |w| ==> !IsSpace(w[i])
  }

  /** White space only, possibly none. */
  predicate IsBlank(g: string) {
    forall i :: 0 <= i < |g| ==> IsSpace(g[i])
  }

  /** The words `ws`, each preceded by its run of white space in `gaps`,
      then `trail`. */
  function Laid(gaps: seq<string>, ws: seq<string>, trail: string): string
    requires |gaps| == |ws|
    decreases |ws|
  {
    if ws == [] then trail else gaps[0] + (ws[0] + Laid(gaps[1..], ws[1..], trail))
  }

  /** A line laid out as the words `ws`: optional white space before the
      first, at least one white-space character between two words, and
      optional white space `trail` after the last. */
  predicate IsLayout(gaps: seq<string>, ws: seq<string>, trail: string) {
    |gaps| == |ws| && IsBlank(trail)
    && forall i :: 0 <= i < |ws| ==> IsWord(ws[i]) && IsBlank(gaps[i]) && (i > 0 ==> gaps[i] != [])
  }

  lemma FieldsOfBlank(g: string)
    requires IsBlank(g)
    ensures Fields(g) == []
  {
    assert SpaceSpan(g) == |g|;
  }

  lemma {:induction false} FieldsSkipsBlank(g: string, t: string)
    requires IsBlank(g)
    ensures Fields(g + t) == Fields(t)
    decreases |g|
  {
    if g == [] {
      assert g + t == t;
    } else {
      assert g + t == [g[0]] + (g[1..] + t);
      assert IsBlank(g[1..]) by {
        forall i | 0 <= i < |g| - 1 ensures IsSpace(g[1..][i]) {
          assert g[1..][i] == g[i + 1];
        }
      }
      FieldsSkipsLeadingSpace(g[0], g[1..] + t);
      FieldsSkipsBlank(g[1..], t);
    }
  }

  /** What follows the first word of a layout is again a layout, and starts
      with white space unless it is empty. */
  lemma LayoutTail(gaps: seq<string>, ws: seq<string>, trail: string)
    requires IsLayout(gaps, ws, trail) && ws != []
    ensures IsLayout(gaps[1..], ws[1..], trail)
    ensures var rest := Laid(gaps[1..], ws[1..], trail); rest == [] || IsSpace(rest[0])
  {
    forall i | 0 <= i < |ws| - 1
      ensures IsWord(ws[1..][i]) && IsBlank(gaps[1..][i]) && (i > 0 ==> gaps[1..][i] != [])
    {
      assert ws[1..][i] == ws[i + 1] && gaps[1..][i] == gaps[i + 1];
    }
    if |ws| > 1 {
      var g := gaps[1..][0];
      assert g == gaps[1] && g != [] && IsSpace(g[0]);
      assert Laid(gaps[1..], ws[1..], trail)[0] == g[0];
    }
  }

  /** However a line spaces its words out (leading, trailing or repeated
      white space of any kind), its fields are those words. */
  lemma {:induction false} FieldsOfLayout(gaps: seq<string>, ws: seq<string>, trail: string)
    requires IsLayout(gaps, ws, trail)
    ensures Fields(Laid(gaps, ws, trail)) == ws
    decreases |ws|
  {
    if ws == [] {
      FieldsOfBlank(trail);
    } else {
      var rest := Laid(gaps[1..], ws[1..], trail);
      LayoutTail(gaps, ws, trail);
      FieldsSkipsBlank(gaps[0], ws[0] + rest);
      FieldsOfLayout(gaps[1..], ws[1..], trail);
      FieldsOfWordThen(ws[0], rest);
      assert [ws[0]] + ws[1..] == ws;
    }
  }

  lemma {:induction false} FieldsSkipsLeadingSpace(c: char, s: string)
    requires IsSpace(c)
    ensures Fields([c] + s) == Fields(s)
  {
    assert ([c] + s)[1..] == s;
    assert SpaceSpan([c] + s) == 1 + SpaceSpan(s);
    assert ([c] + s)[SpaceSpan([c] + s)..] == s[SpaceSpan(s)..];
  }

  lemma {:induction false} WordSpanOfWord(w: string, rest: string)
    requires forall i :: 0 <= i < |w| ==> !IsSpace(w[i])
    requires rest == [] || IsSpace(rest[0])
    ensures WordSpan(w + rest) == |w|
    decreases |w|
  {
    if w == [] {
    } else {
      assert (w + rest)[1..] == w[1..] + rest;
      WordSpanOfWord(w[1..], rest);
    }
  }

  /** A word followed by nothing or by white space is the first field. */
  lemma FieldsOfWordThen(w: string, rest: string)
    requires IsWord(w)
    requires rest == [] || IsSpace(rest[0])
    ensures Fields(w + rest) == [w] + Fields(rest)
  {
    var s := w + rest;
    assert !IsSpace(s[0]);
    assert SpaceSpan(s) == 0;
    assert s[0..] == s;
    WordSpanOfWord(w, rest);
    assert s[..|w|] == w;
    assert s[|w|..] == rest;
  }

  predicate IsDigit(c: char) { '0' <= c <= '9' }

  predicate AllDigits(s: string) {
    forall i :: 0 <= i < |s| ==> IsDigit(s[i])
  }

  /** `n` zero digits. */
  function Zeros(n: nat): (z: string)
    ensures |z| == n && forall i :: 0 <= i < n ==> z[i] == '0'
  {
    seq(n, _ => '0')
  }

  /** The value of a string of decimal digits, most significant first. */
  function DigitsValue(ds: string): nat
    requires AllDigits(ds)
    decreases |ds|
  {
    if ds == [] then 0
    else DigitsValue(ds[..|ds| - 1]) * 10 + (ds[|ds| - 1] as int - '0' as int)
  }

  /** The range of Go's 64-bit `int`. */
  const MinInt: int := -0x8000_0000_0000_0000
  const MaxInt: int := 0x7FFF_FFFF_FFFF_FFFF

  /** `strconv.Atoi`: an optional sign and one or more decimal digits whose
      value fits in a 64-bit `int`; any other token is an error, reported
      with the token. */
  function Atoi(s: string): (r: Result<int, string>)
    ensures r.Ok? ==> MinInt <= r.value <= MaxInt
    ensures r.Err? ==> r.error == s
  {
    var signed := |s| > 0 && (s[0] == '-' || s[0] == '+');
    var body := if signed then s[1..] else s;
    if body == [] || !AllDigits(body) then Err(s)
    else
      var v: int := if signed && s[0] == '-' then -(DigitsValue(body) as int) else DigitsValue(body);
      if v < MinInt || v > MaxInt then Err(s) else Ok(v)
  }

  function DigitChar(d: nat): char
    requires d < 10
  {
    ('0' as int + d) as char
  }

  /** The decimal digits of `m`, without leading zeros. */
  function Digits(m: nat): string
    decreases m
  {
    if m < 10 then [DigitChar(m)] else Digits(m / 10) + [DigitChar(m % 10)]
  }

  /** `strconv.Itoa`: the canonical decimal form of `n`. */
  function Itoa(n: int): string {
    if n < 0 then "-" + Digits(-n) else Digits(n)
  }

  lemma {:induction false} DigitsValueOfDigits(m: nat)
    ensures Digits(m) != [] && AllDigits(Digits(m))
    ensures DigitsValue(Digits(m)) == m
    decreases m
  {
    if m >= 10 {
      DigitsValueOfDigits(m / 10);
      var ds := Digits(m);
      assert ds[..|ds| - 1] == Digits(m / 10);
    }
  }

  /** Every value of a Go `int` survives a round trip through its decimal
      text: `Atoi(Itoa(n)) == n`. */
  lemma AtoiItoa(n: int)
    requires MinInt <= n <= MaxInt
    ensures Atoi(Itoa(n)) == Ok(n)
  {
    var m := if n < 0 then -n else n;
    DigitsValueOfDigits(m);
    if n < 0 {
      assert Itoa(n)[1..] == Digits(m);
    } else {
      assert Digits(m)[0] != '-' && Digits(m)[0] != '+';
    }
  }

  /** A leading `+` changes neither whether Atoi accepts a digit string nor
      the value it reads. */
  lemma AtoiPlusSign(digits: string)
    requires digits != [] && AllDigits(digits)
    ensures Atoi("+" + digits).Ok? == Atoi(digits).Ok?
    ensures Atoi(digits).Ok? ==> Atoi("+" + digits).value == Atoi(digits).value
  {
    var s := "+" + digits;
    assert s[0] == '+' && s[1..] == digits;
    assert IsDigit(digits[0]);
  }

  lemma {:induction false} LeadingZeroValue(t: string)
    requires AllDigits(t)
    ensures AllDigits("0" + t) && DigitsValue("0" + t) == DigitsValue(t)
    decreases |t|
  {
    if t != [] {
      var u := "0" + t;
      assert u[..|u| - 1] == "0" + t[..|t| - 1];
      LeadingZeroValue(t[..|t| - 1]);
    }
  }

  lemma {:induction false} ZerosThenDigitsValue(k: nat, m: nat)
    ensures AllDigits(Zeros(k) + Digits(m)) && DigitsValue(Zeros(k) + Digits(m)) == m
    decreases k
  {
    if k == 0 {
      assert Zeros(k) + Digits(m) == Digits(m);
      DigitsValueOfDigits(m);
    } else {
      ZerosThenDigitsValue(k - 1, m);
      assert Zeros(k) + Digits(m) == "0" + (Zeros(k - 1) + Digits(m));
      LeadingZeroValue(Zeros(k - 1) + Digits(m));
    }
  }

  lemma {:induction false} LeadingDigitValue(ds: string)
    requires ds != [] && AllDigits(ds) && ds[0] != '0'
    ensures DigitsValue(ds) >= 1
    decreases |ds|
  {
    if |ds| > 1 {
      LeadingDigitValue(ds[..|ds| - 1]);
    }
  }

  /** A digit string without a leading zero is the canonical text of its
      value. */
  lemma {:induction false} DigitsOfValue(ds: string)
    requires ds != [] && AllDigits(ds) && ds[0] != '0'
    ensures Digits(DigitsValue(ds)) == ds
    decreases |ds|
  {
    if |ds| > 1 {
      var init := ds[..|ds| - 1];
      var d := ds[|ds| - 1] as int - '0' as int;
      LeadingDigitValue(init);
      DigitsOfValue(init);
      var m := DigitsValue(ds);
      assert m == DigitsValue(init) * 10 + d && 0 <= d < 10;
      assert m / 10 == DigitsValue(init) && m % 10 == d;
      assert DigitChar(d) == ds[|ds| - 1];
      assert ds == init + [ds[|ds| - 1]];
    }
  }

  /** Every digit string is some zeros followed by the canonical text of its
      value. */
  lemma {:induction false} ZerosThenDigitsOf(ds: string)
    requires ds != [] && AllDigits(ds)
    ensures exists k: nat :: ds == Zeros(k) + Digits(DigitsValue(ds))
    decreases |ds|
  {
    if ds[0] != '0' {
      DigitsOfValue(ds);
      assert ds == Zeros(0) + Digits(DigitsValue(ds));
    } else if |ds| == 1 {
      assert ds == Zeros(0) + Digits(0);
    } else {
      var t := ds[1..];
      assert ds == "0" + t;
      LeadingZeroValue(t);
      ZerosThenDigitsOf(t);
      var k: nat :| t == Zeros(k) + Digits(DigitsValue(t));
      ZeroThenZeros(k, Digits(DigitsValue(t)));
    }
  }

  lemma ZeroThenZeros(k: nat, x: string)
    ensures "0" + (Zeros(k) + x) == Zeros(k + 1) + x
  {
    assert Zeros(k + 1) == "0" + Zeros(k);
  }

  /** The signed value Atoi reads from a sign and an all-digit body. */
  function SignedValue(sign: string, body: string): int
    requires AllDigits(body)
  {
    if sign == "-" then -(DigitsValue(body) as int) else DigitsValue(body)
  }

  /** Atoi on a sign (possibly none) followed by a body that does not
      itself start with a sign. */
  lemma AtoiOfSplit(sign: string, body: string)
    requires sign == "" || sign == "+" || sign == "-"
    requires sign == "" ==> body == [] || IsDigit(body[0])
    ensures Atoi(sign + body) ==
              if body == [] || !AllDigits(body) then Err(sign + body)
              else if MinInt <= SignedValue(sign, body) <= MaxInt then Ok(SignedValue(sign, body))
              else Err(sign + body)
  {
    var s := sign + body;
    if sign == "" {
      assert s == body;
    } else {
      assert s[0] == sign[0] && s[1..] == body;
    }
  }

  /** What Atoi accepts: every token it reads is an optional sign, then
      zeros, then the canonical digits of the value's magnitude. */
  lemma AtoiAcceptsOnly(s: string)
    requires Atoi(s).Ok?
    ensures exists sign: string, k: nat, m: nat ::
              (sign == "" || sign == "+" || sign == "-")
              && s == sign + (Zeros(k) + Digits(m))
              && Atoi(s).value == (if sign == "-" then -(m as int) else m)
  {
    var signed := |s| > 0 && (s[0] == '-' || s[0] == '+');
    var sign := if signed then s[..1] else "";
    var body := if signed then s[1..] else s;
    assert s == sign + body;
    assert body != [] && AllDigits(body);
    assert sign == "" ==> IsDigit(body[0]);
    AtoiOfSplit(sign, body);
    ZerosThenDigitsOf(body);
    var k: nat :| body == Zeros(k) + Digits(DigitsValue(body));
    var m := DigitsValue(body);
    assert s == sign + (Zeros(k) + Digits(m));
  }

  /** What Atoi gives for every token of that shape: the signed value when it
      fits in 64 bits, the token as the error otherwise. */
  lemma AtoiOfShape(sign: string, k: nat, m: nat)
    requires sign == "" || sign == "+" || sign == "-"
    ensures var s := sign + (Zeros(k) + Digits(m));
            var v := if sign == "-" then -(m as int) else m;
            Atoi(s) == if MinInt <= v <= MaxInt then Ok(v) else Err(s)
  {
    var body := Zeros(k) + Digits(m);
    ZerosThenDigitsValue(k, m);
    DigitsValueOfDigits(m);
    assert body != [] && IsDigit(body[0]);
    AtoiOfSplit(sign, body);
  }

  /** Atoi rejects a token with a character other than a digit anywhere
      after its one optional leading sign. */
  lemma AtoiRejectsNonDigit(s: string, i: nat)
    requires i < |s| && !IsDigit(s[i]) && !(i == 0 && (s[0] == '+' || s[0] == '-'))
    ensures Atoi(s) == Err(s)
  {
    if |s| > 0 && (s[0] == '-' || s[0] == '+') {
      assert s[1..][i - 1] == s[i];
    }
  }

  /** Atoi rejects a token without digits. */
  lemma AtoiRejectsEmpty(s: string)
    requires s == "" || s == "+" || s == "-"
    ensures Atoi(s) == Err(s)
  {
  }
}
