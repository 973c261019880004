/** Python string primitives the metrics engine relies on: `str.lower`, `str.upper`,
    `str.strip`, the `in` substring test, `str.startswith`, `str.replace(p, "")`,
    decimal formatting of an index and `int(...)` parsing. */
module Text {

  datatype Option<T> = None | Some(value: T)

  /** `str.lower` on one character: ASCII and Latin-1 capitals. */
  function LowerChar(c: char): char {
    if 'A' <= c <= 'Z' || ('\U{C0}' <= c <= '\U{DE}' && c != '\U{D7}') then (c as int + 32) as char else c
  }

  /** `str.upper` on one character: ASCII and Latin-1 small letters (not ß and ÿ). */
  function UpperChar(c: char): char {
    if 'a' <= c <= 'z' || ('\U{E0}' <= c <= '\U{FE}' && c != '\U{F7}') then (c as int - 32) as char else c
  }

  function Lower(s: string): (r: string)
    ensures |r| == |s|
    ensures forall i :: 0 <= i < |s| ==> r[i] == LowerChar(s[i])
  {
    seq(|s|, i requires 0 <= i < |s| => LowerChar(s[i]))
  }

  function Upper(s: string): (r: string)
    ensures |r| == |s|
    ensures forall i :: 0 <= i < |s| ==> r[i] == UpperChar(s[i])
  {
    seq(|s|, i requires 0 <= i < |s| => UpperChar(s[i]))
  }

  /** The characters Python's `str.isspace` accepts. */
  predicate IsSpace(c: char) {
    c == ' ' || ('\t' <= c <= '\r') || ('\U{1C}' <= c <= '\U{1F}') || c == '\U{85}' || c == '\U{A0}'
    || c == '\U{1680}' || ('\U{2000}' <= c <= '\U{200A}') || c == '\U{2028}' || c == '\U{2029}'
    || c == '\U{202F}' || c == '\U{205F}' || c == '\U{3000}'
  }

  /** The position of the first non-whitespace character of `s` at or after `i`. */
  function SpacesFrom(s: string, i: nat): (n: nat)
    requires i <= |s|
    ensures i <= n <= |s|
    ensures forall k :: i <= k < n ==> IsSpace(s[k])
    ensures n == |s| || !IsSpace(s[n])
    decreases |s| - i
  {
    if i < |s| && IsSpace(s[i]) then SpacesFrom(s, i + 1) else i
  }

  function TrimLeft(s: string): (r: string)
    ensures |r| <= |s|
    ensures forall i :: 0 <= i < |r| ==> r[i] == s[|s| - |r| + i]
    ensures r == [] || !IsSpace(r[0])
    ensures forall i :: 0 <= i < |s| - |r| ==> IsSpace(s[i])
  {
    var n := SpacesFrom(s, 0);
    seq(|s| - n, i requires 0 <= i < |s| - n => s[n + i])
  }

  function TrimRight(s: string): (r: string)
    ensures |r| <= |s| && r == s[..|r|]
    ensures r == [] || !IsSpace(r[|r| - 1])
    ensures forall i :: |r| <= i < |s| ==> IsSpace(s[i])
  {
    if |s| > 0 && IsSpace(s[|s| - 1]) then TrimRight(s[..|s| - 1]) else s
  }

  /** `str.strip()`: removes leading and trailing whitespace. */
  function Trim(s: string): string {
    TrimRight(TrimLeft(s))
  }

  /** `str.startswith(p)`. */
  predicate StartsWith(s: string, p: string) {
    |p| <= |s| && s[..|p|] == p
  }

  /** `t` occurs in `s` at offset `k`. */
  predicate OccursAt(s: string, t: string, k: nat) {
    k + |t| <= |s| && s[k..k + |t|] == t
  }

  /** Python's `t in s` for strings. */
  predicate Contains(s: string, t: string) {
    ContainsFrom(s, t, 0)
  }

  /** The search for `t` from offset `k` on. */
  predicate ContainsFrom(s: string, t: string, k: nat)
    requires k <= |s|
    decreases |s| - k
  {
    OccursAt(s, t, k) || (k < |s| && ContainsFrom(s, t, k + 1))
  }

  /** The search from `k` succeeds exactly when `t` occurs at some offset from `k` on. */
  lemma {:induction false} ContainsFromIff(s: string, t: string, k: nat)
    requires k <= |s|
    ensures ContainsFrom(s, t, k) <==> exists j :: k <= j <= |s| && OccursAt(s, t, j)
    decreases |s| - k
  {
    if k < |s| {
      ContainsFromIff(s, t, k + 1);
      if exists j :: k <= j <= |s| && OccursAt(s, t, j) {
        var j :| k <= j <= |s| && OccursAt(s, t, j);
        assert j == k || (k + 1 <= j <= |s| && OccursAt(s, t, j));
      }
    } else {
      if exists j :: k <= j <= |s| && OccursAt(s, t, j) {
        var j :| k <= j <= |s| && OccursAt(s, t, j);
        assert j == k;
      }
    }
  }

  /** Contains means: `t` occurs at some offset of `s`. */
  lemma ContainsIffOccurs(s: string, t: string)
    ensures Contains(s, t) <==> exists k :: 0 <= k <= |s| && OccursAt(s, t, k)
  {
    ContainsFromIff(s, t, 0);
  }

  /** A witness occurrence gives Contains. */
  lemma OccursContains(s: string, t: string, k: nat)
    requires OccursAt(s, t, k)
    ensures Contains(s, t)
  {
    ContainsIffOccurs(s, t);
  }

  /** An occurrence in the tail is an occurrence in the whole text. */
  lemma ContainsTail(s: string, t: string)
    requires |s| > 0 && Contains(s[1..], t)
    ensures Contains(s, t)
  {
    ContainsIffOccurs(s[1..], t);
    var k :| 0 <= k <= |s[1..]| && OccursAt(s[1..], t, k);
    assert s[1..][k..k + |t|] == s[k + 1..k + 1 + |t|];
    OccursContains(s, t, k + 1);
  }

  /** A pattern longer than the text never occurs in it. */
  lemma ContainsLength(s: string, t: string)
    requires Contains(s, t)
    ensures |t| <= |s|
  {
    ContainsIffOccurs(s, t);
  }

  /** A non-empty pattern is found only where its first character occurs. */
  lemma ContainsFirstChar(s: string, t: string)
    requires |t| > 0 && Contains(s, t)
    ensures t[0] in s
  {
    ContainsIffOccurs(s, t);
    var k :| 0 <= k <= |s| && OccursAt(s, t, k);
    assert s[k] == s[k..k + |t|][0];
  }

  /** `s.replace(p, "")`: removes every non-overlapping occurrence, left to right. */
  function RemoveAll(s: string, p: string): (r: string)
    requires |p| > 0
    ensures |r| <= |s|
    decreases |s|
  {
    if |s| < |p| then s
    else if s[..|p|] == p then RemoveAll(s[|p|..], p)
    else [s[0]] + RemoveAll(s[1..], p)
  }

  /** A string lacking the pattern's first character is left as it is. */
  lemma {:induction false} RemoveAllAbsent(s: string, p: string)
    requires |p| > 0 && p[0] !in s
    ensures RemoveAll(s, p) == s
    decreases |s|
  {
    if |s| >= |p| {
      assert s[0] != p[0];
      assert s[..|p|] != p;
      RemoveAllAbsent(s[1..], p);
    }
  }

  function DigitChar(d: nat): (c: char)
    requires d < 10
    ensures '0' <= c <= '9'
  {
    "0123456789"[d]
  }

  /** Decimal text of a natural number, as Python's `str(n)` / f-string gives it. */
  function NatToString(n: nat): (r: string)
    ensures |r| > 0
    ensures forall i :: 0 <= i < |r| ==> '0' <= r[i] <= '9'
    ensures |r| > 1 ==> r[0] != '0'
  {
    if n < 10 then [DigitChar(n)] else NatToString(n / 10) + [DigitChar(n % 10)]
  }

  predicate IsDigit(c: char) {
    '0' <= c <= '9'
  }

  /** Digits with single underscores between them, as `int()` accepts. */
  predicate IsDigitGroup(d: string) {
    && |d| > 0 && IsDigit(d[0]) && IsDigit(d[|d| - 1])
    && (forall i :: 0 <= i < |d| ==> IsDigit(d[i]) || d[i] == '_')
    && (forall i :: 0 <= i < |d| - 1 ==> d[i] == '_' ==> d[i + 1] != '_')
  }

  /** Value of a digit group; underscores are skipped. */
  function DigitsValue(d: string): nat {
    if |d| == 0 then 0
    else if IsDigit(d[|d| - 1]) then DigitsValue(d[..|d| - 1]) * 10 + (d[|d| - 1] as int - '0' as int)
    else DigitsValue(d[..|d| - 1])
  }

  /** Python's `int(s)` on ASCII text: surrounding whitespace, an optional sign, then a
      digit group. `None` is the ValueError case. */
  function ParseInt(s: string): Option<int> {
    var u := Trim(s);
    if |u| > 0 && (u[0] == '+' || u[0] == '-') then
      if IsDigitGroup(u[1..]) then
        var v: int := DigitsValue(u[1..]);
        Some(if u[0] == '-' then -v else v)
      else None
    else if IsDigitGroup(u) then Some(DigitsValue(u))
    else None
  }

  lemma {:induction false} DigitsValueOfNat(n: nat)
    ensures DigitsValue(NatToString(n)) == n
  {
    if n >= 10 {
      var r := NatToString(n);
      assert r[..|r| - 1] == NatToString(n / 10);
      DigitsValueOfNat(n / 10);
    }
  }

  lemma TrimDigits(s: string)
    requires |s| > 0 && forall i :: 0 <= i < |s| ==> IsDigit(s[i])
    ensures Trim(s) == s
  {
    assert !IsSpace(s[0]);
    assert !IsSpace(s[|s| - 1]);
  }

  /** Formatting an index and parsing it back with `int()` round-trips. */
  lemma ParseIntOfNat(n: nat)
    ensures ParseInt(NatToString(n)) == Some(n)
  {
    var r := NatToString(n);
    TrimDigits(r);
    DigitsValueOfNat(n);
    assert IsDigitGroup(r);
  }

  /** Lower-casing never creates or removes whitespace. */
  lemma LowerCharSpace(c: char)
    ensures IsSpace(LowerChar(c)) <==> IsSpace(c)
  {
  }

  lemma {:induction false} SpacesFromLower(s: string, i: nat)
    requires i <= |s|
    ensures SpacesFrom(Lower(s), i) == SpacesFrom(s, i)
    decreases |s| - i
  {
    if i < |s| {
      LowerCharSpace(s[i]);
      if IsSpace(s[i]) {
        SpacesFromLower(s, i + 1);
      }
    }
  }

  lemma TrimLeftLower(s: string)
    ensures TrimLeft(Lower(s)) == Lower(TrimLeft(s))
  {
    SpacesFromLower(s, 0);
  }

  lemma {:induction false} TrimRightLower(s: string)
    ensures TrimRight(Lower(s)) == Lower(TrimRight(s))
    decreases |s|
  {
    if |s| > 0 {
      LowerCharSpace(s[|s| - 1]);
      assert Lower(s)[..|s| - 1] == Lower(s[..|s| - 1]);
      if IsSpace(s[|s| - 1]) {
        TrimRightLower(s[..|s| - 1]);
      }
    }
  }

  /** `str(v).lower().strip()` and `str(v).strip().lower()` agree: the two orders the
      source uses in different places give the same text. */
  lemma TrimLowerCommute(s: string)
    ensures Trim(Lower(s)) == Lower(Trim(s))
  {
    TrimLeftLower(s);
    TrimRightLower(TrimLeft(s));
  }
}
