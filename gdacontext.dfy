/** What a parsed test case asks of the decimal engine: the condition flags
    its `conditions` tokens name, and the arithmetic context built from its
    settings. Flag sets are abstract sets of conditions; the engine's own
    bit values are not part of this model. */
module GdaContext {
  import opened Results
  import opened DecTest

  /** The signals a decimal operation can raise. */
  datatype Condition =
    | Underflow | Inexact | Overflow | Subnormal
    | DivisionUndefined | DivisionByZero | DivisionImpossible | InvalidOperation
    | Rounded | Clamped

  /** How a condition token reads: a flag, a token to pass over, or a token
      the harness does not know. */
  datatype ConditionToken = Flag(flag: Condition) | Ignored | Unknown

  /** The condition token of a decTest corpus for each flag. */
  function ConditionName(c: Condition): string {
    match c
    case Underflow => "underflow"
    case Inexact => "inexact"
    case Overflow => "overflow"
    case Subnormal => "subnormal"
    case DivisionUndefined => "division_undefined"
    case DivisionByZero => "division_by_zero"
    case DivisionImpossible => "division_impossible"
    case InvalidOperation => "invalid_operation"
    case Rounded => "rounded"
    case Clamped => "clamped"
  }

  /** The harness's reading of one condition token. */
  function ReadCondition(token: string): (r: ConditionToken)
    ensures r.Flag? ==> ConditionName(r.flag) == token
    ensures r.Ignored? <==> token == "invalid_context"
  {
    if token == "underflow" then Flag(Underflow)
    else if token == "inexact" then Flag(Inexact)
    else if token == "overflow" then Flag(Overflow)
    else if token == "subnormal" then Flag(Subnormal)
    else if token == "division_undefined" then Flag(DivisionUndefined)
    else if token == "division_by_zero" then Flag(DivisionByZero)
    else if token == "division_impossible" then Flag(DivisionImpossible)
    else if token == "invalid_operation" then Flag(InvalidOperation)
    else if token == "rounded" then Flag(Rounded)
    else if token == "clamped" then Flag(Clamped)
    else if token == "invalid_context" then Ignored
    else Unknown
  }

  /** The flag tokens are exactly the names of the flags: reading a flag's
      name gives the flag back, and a token read as a flag is that flag's
      name. */
  lemma ReadConditionName(c: Condition, token: string)
    ensures ReadCondition(ConditionName(c)) == Flag(c)
    ensures ReadCondition(token) == Flag(c) ==> token == ConditionName(c)
  {
    if ReadCondition(token) == Flag(c) {
      match c
      case Underflow =>
      case Inexact =>
      case Overflow =>
      case Subnormal =>
      case DivisionUndefined =>
      case DivisionByZero =>
      case DivisionImpossible =>
      case InvalidOperation =>
      case Rounded =>
      case Clamped =>
    }
  }

  /** The flags named among `conds`. */
  function NamedFlags(conds: seq<string>): set<Condition> {
    set j | 0 <= j < |conds| && ReadCondition(conds[j]).Flag? :: ReadCondition(conds[j]).flag
  }

  /** The flags a case expects: the union of the flags its condition tokens
      name, ignoring `invalid_context`; the first unknown token is an
      error. */
  method ExpectedFlags(conds: seq<string>) returns (r: Result<set<Condition>, string>)
    ensures r.Ok? <==> forall j :: 0 <= j < |conds| ==> !ReadCondition(conds[j]).Unknown?
    ensures r.Ok? ==> r.value == NamedFlags(conds)
    ensures r.Err? ==> exists j :: 0 <= j < |conds| && r.error == conds[j]
                                   && ReadCondition(conds[j]).Unknown?
                                   && forall m :: 0 <= m < j ==> !ReadCondition(conds[m]).Unknown?
  {
    var flags: set<Condition> := {};
    var i := 0;
    while i < |conds|
      invariant 0 <= i <= |conds|
      invariant forall m :: 0 <= m < i ==> !ReadCondition(conds[m]).Unknown?
      invariant flags == NamedFlags(conds[..i])
    {
      var cond := conds[i];
      match ReadCondition(cond) {
        case Flag(c) =>
          flags := flags + {c};
        case Ignored =>
        case Unknown =>
          assert ReadCondition(conds[i]).Unknown?;
          return Err(cond);
      }
      NamedFlagsStep(conds, i);
      i := i + 1;
    }
    assert conds[..i] == conds;
    r := Ok(flags);
  }

  lemma NamedFlagsSnoc(conds: seq<string>, cond: string)
    ensures NamedFlags(conds + [cond]) ==
            NamedFlags(conds) + (if ReadCondition(cond).Flag? then {ReadCondition(cond).flag} else {})
  {
    var s := conds + [cond];
    forall c | c in NamedFlags(conds) ensures c in NamedFlags(s) {
      var j :| 0 <= j < |conds| && ReadCondition(conds[j]).Flag? && ReadCondition(conds[j]).flag == c;
      assert s[j] == conds[j];
    }
    if ReadCondition(cond).Flag? {
      assert s[|conds|] == cond;
    }
  }

  lemma NamedFlagsStep(conds: seq<string>, i: nat)
    requires i < |conds|
    ensures NamedFlags(conds[..i + 1]) ==
            NamedFlags(conds[..i]) + (if ReadCondition(conds[i]).Flag? then {ReadCondition(conds[i]).flag} else {})
  {
    assert conds[..i + 1] == conds[..i] + [conds[i]];
    NamedFlagsSnoc(conds[..i], conds[i]);
  }

  /** The order and repetition of condition tokens do not matter: the flags
      of two lists together are the flags of each. */
  lemma {:induction false} NamedFlagsAppend(a: seq<string>, b: seq<string>)
    ensures NamedFlags(a + b) == NamedFlags(a) + NamedFlags(b)
    decreases |b|
  {
    if b == [] {
      assert a + b == a;
    } else {
      var b' := b[..|b| - 1];
      var cond := b[|b| - 1];
      assert a + b == (a + b') + [cond];
      assert b == b' + [cond];
      NamedFlagsAppend(a, b');
      NamedFlagsSnoc(a + b', cond);
      NamedFlagsSnoc(b', cond);
    }
  }

  /** The names of a list of flags. */
  function ConditionNames(cs: seq<Condition>): (names: seq<string>)
    ensures |names| == |cs|
  {
    seq(|cs|, j requires 0 <= j < |cs| => ConditionName(cs[j]))
  }

  /** Writing flags out by name and reading the names back gives the same
      flags. */
  lemma ExpectedFlagsOfNames(cs: seq<Condition>)
    ensures forall j :: 0 <= j < |cs| ==> !ReadCondition(ConditionNames(cs)[j]).Unknown?
    ensures NamedFlags(ConditionNames(cs)) == set j | 0 <= j < |cs| :: cs[j]
  {
    var names := ConditionNames(cs);
    forall j | 0 <= j < |cs| ensures ReadCondition(names[j]) == Flag(cs[j]) {
      ReadConditionName(cs[j], names[j]);
    }
    forall c | c in NamedFlags(names) ensures c in set j | 0 <= j < |cs| :: cs[j] {
      var j :| 0 <= j < |names| && ReadCondition(names[j]).Flag? && ReadCondition(names[j]).flag == c;
      assert cs[j] == c;
    }
    forall c | c in (set j | 0 <= j < |cs| :: cs[j]) ensures c in NamedFlags(names) {
      var j :| 0 <= j < |cs| && cs[j] == c;
      assert ReadCondition(names[j]).flag == c;
    }
  }

  // ---------------------------------------------------------------------
  // The arithmetic context of a case

  /** The rounding policies a case may name. */
  datatype Rounding =
    | Ceiling | Down | Floor | HalfDown | HalfEven | HalfUp | Up | ZeroFiveUp

  /** The rounding name of a decTest corpus for each policy. */
  function RoundingName(m: Rounding): string {
    match m
    case Ceiling => "ceiling"
    case Down => "down"
    case Floor => "floor"
    case HalfDown => "half_down"
    case HalfEven => "half_even"
    case HalfUp => "half_up"
    case Up => "up"
    case ZeroFiveUp => "05up"
  }

  /** The policy a rounding name selects, if any. */
  function RoundingNamed(name: string): (r: Option<Rounding>)
    ensures r.Some? ==> RoundingName(r.value) == name
  {
    if name == "ceiling" then Some(Ceiling)
    else if name == "down" then Some(Down)
    else if name == "floor" then Some(Floor)
    else if name == "half_down" then Some(HalfDown)
    else if name == "half_even" then Some(HalfEven)
    else if name == "half_up" then Some(HalfUp)
    else if name == "up" then Some(Up)
    else if name == "05up" then Some(ZeroFiveUp)
    else None
  }

  /** The rounding table is a bijection between its names and the policies. */
  lemma RoundingNamedName(m: Rounding, name: string)
    ensures RoundingNamed(RoundingName(m)) == Some(m)
    ensures RoundingNamed(name) == Some(m) ==> name == RoundingName(m)
  {
  }

  const TwoTo31: int := 0x8000_0000
  const TwoTo32: int := 0x1_0000_0000

  /** Go's `uint32(n)`: `n` reduced modulo 2^32. */
  function Uint32(n: int): (r: nat)
    ensures r < TwoTo32 && (n - r) % TwoTo32 == 0
    ensures 0 <= n < TwoTo32 ==> r == n
  {
    var r := n % TwoTo32;
    assert n == TwoTo32 * (n / TwoTo32) + r;
    r
  }

  /** Go's `int32(n)`: the two's-complement reading of the low 32 bits of
      `n`. */
  function Int32(n: int): (r: int)
    ensures -TwoTo31 <= r < TwoTo31 && (n - r) % TwoTo32 == 0
    ensures -TwoTo31 <= n < TwoTo31 ==> r == n
  {
    var u := Uint32(n);
    if u >= TwoTo31 then u - TwoTo32 else u
  }

  /** The traps of a case's context: the default traps, less Subnormal and
      Underflow when the case runs in extended mode. */
  function Traps(defaultTraps: set<Condition>, extended: bool): (r: set<Condition>)
    ensures r <= defaultTraps
    ensures forall c :: c in defaultTraps && c != Subnormal && c != Underflow ==> c in r
    ensures Subnormal in r <==> Subnormal in defaultTraps && !extended
    ensures Underflow in r <==> Underflow in defaultTraps && !extended
  {
    if extended then defaultTraps - {Subnormal, Underflow} else defaultTraps
  }

  /** An arithmetic context as the engine takes it. */
  datatype Context = Context(precision: nat, maxExponent: int, minExponent: int,
                             rounding: Rounding, traps: set<Condition>)

  /** `TestCase.Context`: the context for a case, or the rounding name that
      has no policy. */
  function ContextOf(tc: TestCase, defaultTraps: set<Condition>): (r: Result<Context, string>)
    ensures r.Err? <==> RoundingNamed(tc.rounding).None?
    ensures r.Err? ==> r.error == tc.rounding
    ensures r.Ok? ==> RoundingName(r.value.rounding) == tc.rounding
    ensures r.Ok? ==> r.value.precision < TwoTo32 && (tc.precision - r.value.precision) % TwoTo32 == 0
    ensures r.Ok? && 0 <= tc.precision < TwoTo32 ==> r.value.precision == tc.precision
    ensures r.Ok? && -TwoTo31 <= tc.maxExponent < TwoTo31 ==> r.value.maxExponent == tc.maxExponent
    ensures r.Ok? && -TwoTo31 <= tc.minExponent < TwoTo31 ==> r.value.minExponent == tc.minExponent
    ensures r.Ok? ==> r.value.precision == Uint32(tc.precision)
    ensures r.Ok? ==> r.value.maxExponent == Int32(tc.maxExponent) && r.value.minExponent == Int32(tc.minExponent)
    ensures r.Ok? ==> r.value.traps == Traps(defaultTraps, tc.extended)
    ensures r.Ok? ==> r.value.traps <= defaultTraps
    ensures r.Ok? && tc.extended ==> Subnormal !in r.value.traps && Underflow !in r.value.traps
  {
    match RoundingNamed(tc.rounding)
    case None => Err(tc.rounding)
    case Some(m) =>
      Ok(Context(Uint32(tc.precision), Int32(tc.maxExponent), Int32(tc.minExponent), m,
                 Traps(defaultTraps, tc.extended)))
  }
}
