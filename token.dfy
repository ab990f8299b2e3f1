/**
 * The token codec: the `::augeas::parseToken` proc installed by Tclaugeas_Init,
 * the token that Init_Cmd formats, and parse_id, which turns a token into a
 * slot index of the handle table.
 */
module Token {
  import opened Tcl

  /** Number of slots of the handle table (MAX_COUNT). */
  const MaxCount: nat := 16

  /** The namespace prefix of tokens: NS "::". */
  const Namespace: string := "::augeas::"

  predicate IsDigit(c: char) { '0' <= c <= '9' }

  predicate AllDigits(d: string) { forall i :: 0 <= i < |d| ==> IsDigit(d[i]) }

  /** The language of `[1-9]+[0-9]*`: a non-empty digit string without a leading zero. */
  predicate IsNumeral(d: string) { |d| > 0 && '1' <= d[0] <= '9' && AllDigits(d) }

  /** The language of `^(?:::augeas::)?([1-9]+[0-9]*)$`, stated declaratively. */
  ghost predicate InTokenLanguage(s: string)
  {
    exists d :: IsNumeral(d) && (s == d || s == Namespace + d)
  }

  predicate HasNamespace(s: string)
  {
    |Namespace| <= |s| && s[..|Namespace|] == Namespace
  }

  /**
   * The `parseToken` proc: matches the token against its regular expression and
   * returns the captured digit string, or fails when the token does not match.
   */
  function ParseToken(s: string): (r: Option<string>)
    ensures r.Some? ==> IsNumeral(r.value) && (s == r.value || s == Namespace + r.value)
  {
    var body := if HasNamespace(s) then s[|Namespace|..] else s;
    if IsNumeral(body) then Some(body) else None
  }

  /** The captured digit string is exactly the accepted language. */
  lemma TokenLanguage(s: string)
    ensures ParseToken(s).Some? <==> InTokenLanguage(s)
  {
    if InTokenLanguage(s) {
      var d :| IsNumeral(d) && (s == d || s == Namespace + d);
      if s == d {
        // A numeral starts with a digit, never with the ':' of the namespace.
        assert IsDigit(s[0]) && !IsDigit(Namespace[0]);
      } else {
        assert s[..|Namespace|] == Namespace;
        assert s[|Namespace|..] == d;
      }
    }
  }

  function DigitValue(c: char): (v: nat)
    requires IsDigit(c)
    ensures v < 10
  {
    c as int - '0' as int
  }

  function DigitChar(v: nat): (c: char)
    requires v < 10
    ensures IsDigit(c) && DigitValue(c) == v
  {
    ('0' as int + v) as char
  }

  /**
   * The integer a digit string denotes (Tcl_GetIntFromObj on a decimal string).
   * A numeral denotes at least 1, so the slot index parse_id derives by
   * subtracting one is never negative.
   */
  function NumeralValue(d: string): (v: nat)
    requires AllDigits(d)
    ensures IsNumeral(d) ==> v >= 1
  {
    if |d| == 0 then 0
    else
      var p := d[..|d| - 1];
      assert |p| > 0 ==> p[0] == d[0];
      NumeralValue(p) * 10 + DigitValue(d[|d| - 1])
  }

  /** The decimal text of n, as `%d` prints it: digits only, and no leading zero unless n is 0. */
  function Numeral(n: nat): (r: string)
    ensures |r| >= 1 && AllDigits(r)
    ensures n >= 1 ==> IsNumeral(r)
  {
    if n < 10 then [DigitChar(n)]
    else
      var p := Numeral(n / 10);
      var t := p + [DigitChar(n % 10)];
      assert t[0] == p[0];
      t
  }

  /** Printing a positive integer gives a numeral that reads back as the same integer. */
  lemma {:induction false} NumeralRoundTrip(n: nat)
    requires n >= 1
    ensures IsNumeral(Numeral(n)) && NumeralValue(Numeral(n)) == n
  {
    if n >= 10 {
      NumeralRoundTrip(n / 10);
      var p := Numeral(n / 10);
      var d := Numeral(n);
      assert d == p + [DigitChar(n % 10)];
      assert d[..|d| - 1] == p;
      assert d[0] == p[0];
    }
  }

  /** Every numeral is the printed form of its value: numerals and positive integers are in bijection. */
  lemma {:induction false} NumeralCanonical(d: string)
    requires IsNumeral(d)
    ensures NumeralValue(d) >= 1 && Numeral(NumeralValue(d)) == d
  {
    if |d| > 1 {
      var p := d[..|d| - 1];
      assert p[0] == d[0];
      NumeralCanonical(p);
      var last := DigitValue(d[|d| - 1]);
      var v := NumeralValue(d);
      assert v == NumeralValue(p) * 10 + last;
      assert v / 10 == NumeralValue(p) && v % 10 == last;
      assert DigitChar(last) == d[|d| - 1];
      assert d == p + [d[|d| - 1]];
    }
  }

  /**
   * The token Init_Cmd returns for slot id, with n = id + 1: the namespace
   * followed by the printed number. For n >= 1 it parses back to exactly the
   * printed digits, which denote n.
   */
  function FormatToken(n: nat): (t: string)
    ensures HasNamespace(t)
    ensures n >= 1 ==> ParseToken(t) == Some(Numeral(n)) && NumeralValue(ParseToken(t).value) == n
  {
    var t := Namespace + Numeral(n);
    assert t[..|Namespace|] == Namespace && t[|Namespace|..] == Numeral(n);
    if n >= 1 then (NumeralRoundTrip(n); t) else t
  }

  /**
   * Why parse_id fails. When the token matches but names no active slot,
   * parse_id leaves the proc's own result, the captured digits, in the
   * interpreter.
   */
  datatype TokenError = Malformed | NotActive(digits: string)

  /**
   * parse_id, with the upper bound on the slot index that the source leaves
   * out: the token's number minus one must be a slot of the table and that
   * slot's flag must be 1.
   */
  function ParseId(token: string, active: seq<int>): (r: Result<nat, TokenError>)
    requires |active| == MaxCount
    ensures r == Failure(Malformed) <==> ParseToken(token).None?
    ensures r.Success? ==> r.value < MaxCount && active[r.value] == 1
    ensures r.Success? ==> ParseToken(token) == Some(Numeral(r.value + 1))
    ensures ParseToken(token).Some? && r.Failure? ==> r.error == NotActive(ParseToken(token).value)
    ensures ParseToken(token).Some? ==>
              (r.Success? <==> var n := NumeralValue(ParseToken(token).value);
                               1 <= n <= MaxCount && active[n - 1] == 1)
  {
    match ParseToken(token)
    case None => Failure(Malformed)
    case Some(d) =>
      NumeralCanonical(d);
      var id := NumeralValue(d) - 1;
      if id < MaxCount && active[id] == 1 then Success(id) else Failure(NotActive(d))
  }

  /** The token issued for an active slot resolves to that slot. */
  lemma ParseIdOfFormatToken(id: nat, active: seq<int>)
    requires |active| == MaxCount && id < MaxCount
    ensures ParseId(FormatToken(id + 1), active) ==
            if active[id] == 1 then Success(id) else Failure(NotActive(Numeral(id + 1)))
  {
  }

  /**
   * The interpreter result after parse_id resolved slot id: the value the
   * parseToken proc returned, the decimal digits of the token number id + 1.
   * Handlers that set no result of their own return it.
   */
  function Leftover(id: nat): (r: string)
    ensures IsNumeral(r) && NumeralValue(r) == id + 1
  {
    NumeralRoundTrip(id + 1);
    Numeral(id + 1)
  }

  /** The leftover result of a resolved token is exactly the digits the token spells. */
  lemma LeftoverIsTokenDigits(token: string, active: seq<int>)
    requires |active| == MaxCount && ParseId(token, active).Success?
    ensures Leftover(ParseId(token, active).value) == ParseToken(token).value
    ensures Leftover(ParseId(token, active).value) != ""
  {
  }

  /** What parse_id as written does: a probe of the flag array without a bound. */
  datatype Probe = Unparsed | ReadsOutside(index: nat) | Inactive | Active(id: nat)

  /** parse_id as the source writes it (tcl-augeas.c:67-75): reads active[n - 1] for any n. */
  function ParseIdAsWritten(token: string, active: seq<int>): (r: Probe)
    ensures r.Active? ==> r.id < |active| && active[r.id] == 1
    ensures r == Unparsed <==> ParseToken(token).None?
    ensures ParseToken(token).Some? && NumeralValue(ParseToken(token).value) > |active| ==>
              r == ReadsOutside(NumeralValue(ParseToken(token).value) - 1)
  {
    match ParseToken(token)
    case None => Unparsed
    case Some(d) =>
      NumeralCanonical(d);
      var id: nat := NumeralValue(d) - 1;
      if id >= |active| then ReadsOutside(id)
      else if active[id] == 1 then Active(id) else Inactive
  }

  /** `::augeas::17` passes the regular expression and makes parse_id read beyond the table. */
  lemma ParseIdReadsBeyondTable(active: seq<int>)
    requires |active| == MaxCount
    ensures ParseIdAsWritten("::augeas::17", active) == ReadsOutside(16)
    ensures ParseId("::augeas::17", active) == Failure(NotActive("17"))
  {
    assert "::augeas::17" == FormatToken(17);
  }

  /** On tokens inside the table, the corrected parse_id agrees with the one as written. */
  lemma ParseIdAgreesInRange(token: string, active: seq<int>)
    requires |active| == MaxCount
    requires !ParseIdAsWritten(token, active).ReadsOutside?
    ensures ParseId(token, active).Success? <==> ParseIdAsWritten(token, active).Active?
    ensures ParseId(token, active).Success? ==>
              ParseIdAsWritten(token, active) == Active(ParseId(token, active).value)
  {
    if ParseToken(token).Some? {
      NumeralCanonical(ParseToken(token).value);
    }
  }
}
