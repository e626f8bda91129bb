/** Values and string operations that the shop's JavaScript relies on implicitly:
    optional values, truthiness, `x || fallback`, substring search (SQL LIKE '%s%'),
    number-to-text formatting, `String.prototype.split` and `parseInt`. */
module Common {

  datatype Option<T> = None | Some(value: T)

  /** JavaScript truthiness of an optional string: undefined/null and "" are falsy. */
  predicate Truthy(s: Option<string>) {
    s.Some? && s.value != ""
  }

  /** JavaScript's `||` with a null fallback on an optional string (middleware/responseLogger.js:33-36):
      the string when it is non-empty, otherwise none. */
  function OrNull(s: Option<string>): (r: Option<string>)
    ensures r.Some? <==> Truthy(s)
    ensures r.Some? ==> r == s
  {
    if Truthy(s) then s else None
  }

  /** JavaScript's `||` on an optional string with a string fallback: the string when it is
      non-empty, otherwise the fallback (controllers/authController.js:72). */
  function OrElse(s: Option<string>, fallback: string): (r: string)
    ensures Truthy(s) ==> r == s.value
    ensures !Truthy(s) ==> r == fallback
  {
    if Truthy(s) then s.value else fallback
  }

  // ---------------------------------------------------------------------------
  // Substrings

  predicate StartsWith(s: string, prefix: string) {
    |prefix| <= |s| && s[..|prefix|] == prefix
  }

  /** `hay.includes(needle)`, also the meaning given here to SQL `LIKE '%needle%'`. */
  predicate Contains(hay: string, needle: string)
    decreases |hay|
  {
    StartsWith(hay, needle) || (|hay| > 0 && Contains(hay[1..], needle))
  }

  /** The needle occurs in hay at position i. */
  predicate OccursAt(hay: string, needle: string, i: nat) {
    i + |needle| <= |hay| && hay[i..i + |needle|] == needle
  }

  /** Contains finds exactly the occurrences of the needle at some position. */
  lemma {:induction false} ContainsAt(hay: string, needle: string)
    ensures Contains(hay, needle) <==> exists i: nat :: OccursAt(hay, needle, i)
    decreases |hay|
  {
    if StartsWith(hay, needle) {
      assert OccursAt(hay, needle, 0);
    } else if |hay| == 0 {
    } else {
      ContainsAt(hay[1..], needle);
      if Contains(hay[1..], needle) {
        var i: nat :| OccursAt(hay[1..], needle, i);
        assert hay[1..][i..i + |needle|] == hay[i + 1..i + 1 + |needle|];
        assert OccursAt(hay, needle, i + 1);
      }
      if i: nat :| OccursAt(hay, needle, i) {
        assert hay[1..][i - 1..i - 1 + |needle|] == hay[i..i + |needle|];
        assert OccursAt(hay[1..], needle, i - 1);
      }
    }
  }

  // ---------------------------------------------------------------------------
  // Decimal text of numbers (template literals `${n}`)

  predicate IsDigit(c: char) {
    '0' <= c <= '9'
  }

  function DigitChar(d: nat): (c: char)
    requires d < 10
    ensures IsDigit(c)
  {
    (('0' as int) + d) as char
  }

  function DigitValue(c: char): (d: nat)
    requires IsDigit(c)
    ensures d < 10 && DigitChar(d) == c
  {
    (c as int) - ('0' as int)
  }

  predicate AllDigits(s: string) {
    forall i :: 0 <= i < |s| ==> IsDigit(s[i])
  }

  /** The decimal numeral of a natural number, without leading zeros. */
  function NatToString(n: nat): (s: string)
    ensures |s| >= 1 && AllDigits(s)
    ensures s[0] == '0' ==> n == 0
    decreases n
  {
    if n < 10 then [DigitChar(n)] else NatToString(n / 10) + [DigitChar(n % 10)]
  }

  /** The decimal numeral of an integer, with a minus sign when it is negative, as a
      template literal writes it (controllers/orderController.js:11). */
  function IntToString(i: int): (s: string)
  {
    if i < 0 then "-" + NatToString(-i) else NatToString(i)
  }

  /** The value of a string of decimal digits, read left to right. */
  function DecimalValue(s: string): nat
    requires AllDigits(s)
    decreases |s|
  {
    if s == [] then 0 else DecimalValue(s[..|s| - 1]) * 10 + DigitValue(s[|s| - 1])
  }

  lemma {:induction false} DecimalRoundTrip(n: nat)
    ensures DecimalValue(NatToString(n)) == n
    decreases n
  {
    var s := NatToString(n);
    if n >= 10 {
      DecimalRoundTrip(n / 10);
      assert s[..|s| - 1] == NatToString(n / 10);
    }
  }

  /** `(cents / 100).toFixed(2)`: a money amount in cents as text with two decimals. */
  function Fixed2(cents: int): string
    decreases if cents < 0 then 1 else 0
  {
    if cents < 0 then "-" + Fixed2(-cents)
    else NatToString(cents / 100) + "." + [DigitChar(cents % 100 / 10), DigitChar(cents % 10)]
  }

  /** The text reads back as the amount: whole units, a point, then two digits of cents. */
  lemma Fixed2Value(cents: nat)
    ensures var s := Fixed2(cents);
            && |s| >= 4 && s[|s| - 3] == '.'
            && AllDigits(s[..|s| - 3]) && AllDigits(s[|s| - 2..])
            && DecimalValue(s[..|s| - 3]) * 100 + DecimalValue(s[|s| - 2..]) == cents
  {
    var s := Fixed2(cents);
    var whole := NatToString(cents / 100);
    assert s[..|s| - 3] == whole;
    DecimalRoundTrip(cents / 100);
    var frac := s[|s| - 2..];
    assert frac == [DigitChar(cents % 100 / 10), DigitChar(cents % 10)];
    assert frac[..1] == [DigitChar(cents % 100 / 10)];
    assert DecimalValue(frac[..1][..0]) == 0;
  }

  /** `parseFloat` of a two-decimal amount, in cents; text of any other shape reads as 0. */
  function ReadCents(s: string): int {
    if |s| >= 1 && s[0] == '-' then -(ReadUnsignedCents(s[1..]) as int) else ReadUnsignedCents(s)
  }

  function ReadUnsignedCents(s: string): nat {
    if |s| >= 4 && s[|s| - 3] == '.' && AllDigits(s[..|s| - 3]) && AllDigits(s[|s| - 2..]) then
      DecimalValue(s[..|s| - 3]) * 100 + DecimalValue(s[|s| - 2..])
    else 0
  }

  lemma ReadUnsignedFixed2(cents: nat)
    ensures |Fixed2(cents)| >= 1 && Fixed2(cents)[0] != '-'
    ensures ReadUnsignedCents(Fixed2(cents)) == cents
  {
    Fixed2Value(cents);
    var s := Fixed2(cents);
    assert s[0] == s[..|s| - 3][0];
    assert IsDigit(s[..|s| - 3][0]);
  }

  /** Reading back the two-decimal text of an amount gives the amount. */
  lemma ReadFixed2(cents: int)
    ensures ReadCents(Fixed2(cents)) == cents
  {
    if cents < 0 {
      ReadUnsignedFixed2(-cents);
      assert Fixed2(cents) == "-" + Fixed2(-cents);
      assert Fixed2(cents)[1..] == Fixed2(-cents);
    } else {
      ReadUnsignedFixed2(cents);
    }
  }

  // ---------------------------------------------------------------------------
  // String.prototype.split with a one-character separator

  /** `s.split(sep)`: the pieces between separators, empty pieces kept. */
  function Split(s: string, sep: char): (parts: seq<string>)
    ensures |parts| >= 1
    decreases |s|
  {
    if sep !in s then [s]
    else
      var i := FirstIndex(s, sep);
      [s[..i]] + Split(s[i + 1..], sep)
  }

  function FirstIndex(s: string, c: char): (i: nat)
    requires c in s
    ensures i < |s| && s[i] == c && c !in s[..i]
  {
    if s[0] == c then 0 else
      assert c in s[1..];
      1 + FirstIndex(s[1..], c)
  }

  lemma SplitFirst(p: string, sep: char, rest: string)
    requires sep !in p
    ensures Split(p + [sep] + rest, sep) == [p] + Split(rest, sep)
  {
    var s := p + [sep] + rest;
    assert s[|p|] == sep;
    var i := FirstIndex(s, sep);
    assert s[..|p|] == p;
    assert s[..i] == p;
    assert s[i + 1..] == rest;
  }

  // ---------------------------------------------------------------------------
  // parseInt(s) with no radix argument

  /** The white space that `parseInt` skips (the ASCII part and NBSP, BOM, LS, PS). */
  predicate IsJsSpace(c: char) {
    c == ' ' || c == '\t' || c == '\n' || c == '\r' || c == '\U{0B}' || c == '\U{0C}'
    || c == '\U{A0}' || c == '\U{FEFF}' || c == '\U{2028}' || c == '\U{2029}'
  }

  function TrimStart(s: string): (t: string)
    ensures |t| <= |s|
    decreases |s|
  {
    if |s| > 0 && IsJsSpace(s[0]) then TrimStart(s[1..]) else s
  }

  function HexValue(c: char): (r: Option<nat>)
    ensures r.Some? ==> r.value < 16
  {
    if IsDigit(c) then Some(DigitValue(c))
    else if 'a' <= c <= 'f' then Some((c as int) - ('a' as int) + 10)
    else if 'A' <= c <= 'F' then Some((c as int) - ('A' as int) + 10)
    else None
  }

  function RadixDigit(c: char, radix: nat): Option<nat>
    requires radix == 10 || radix == 16
  {
    if radix == 10 then (if IsDigit(c) then Some(DigitValue(c)) else None) else HexValue(c)
  }

  /** Length of the longest prefix of radix digits. */
  function DigitRun(s: string, radix: nat): (n: nat)
    requires radix == 10 || radix == 16
    ensures n <= |s|
    decreases |s|
  {
    if |s| > 0 && RadixDigit(s[0], radix).Some? then 1 + DigitRun(s[1..], radix) else 0
  }

  /** The value of the radix-digit prefix of s of length n, read left to right. */
  function RunValue(s: string, n: nat, radix: nat): nat
    requires radix == 10 || radix == 16
    requires n <= DigitRun(s, radix)
    decreases n
  {
    if n == 0 then 0
    else
      DigitRunPrefix(s, n - 1, radix);
      var high := RunValue(s, n - 1, radix);
      (if radix == 10 then high * 10 else high * 16) + RadixDigit(s[n - 1], radix).value
  }

  lemma DigitRunPrefix(s: string, k: nat, radix: nat)
    requires radix == 10 || radix == 16
    requires k < DigitRun(s, radix)
    ensures RadixDigit(s[k], radix).Some?
    decreases k
  {
    if k > 0 {
      DigitRunPrefix(s[1..], k - 1, radix);
    }
  }

  /** The unsigned part of `parseInt`: a "0x"/"0X" prefix selects hexadecimal,
      otherwise decimal; no digit at all gives NaN (None). */
  function ParseUnsigned(u: string): Option<nat>
  {
    if |u| >= 2 && u[0] == '0' && (u[1] == 'x' || u[1] == 'X') then Numeral(u[2..], 16) else Numeral(u, 10)
  }

  /** The value of the digits at the start of body; NaN (None) when there are none. */
  function Numeral(body: string, radix: nat): Option<nat>
    requires radix == 10 || radix == 16
  {
    var n := DigitRun(body, radix);
    if n == 0 then None else Some(RunValue(body, n, radix))
  }

  /** `parseInt(s)`: leading white space skipped, an optional sign, then the digits;
      None stands for NaN. */
  function ParseInt(s: string): (r: Option<int>)
  {
    Signed(TrimStart(s))
  }

  /** An optional sign, then the unsigned digits. */
  function Signed(t: string): Option<int> {
    if |t| > 0 && t[0] == '-' then
      match ParseUnsigned(t[1..])
      case None => None
      case Some(m) => Some(-(m as int))
    else
      match ParseUnsigned(if |t| > 0 && t[0] == '+' then t[1..] else t)
      case None => None
      case Some(m) => Some(m as int)
  }

  lemma DigitRunOfNumeral(d: string, rest: string)
    requires AllDigits(d)
    requires rest == [] || !IsDigit(rest[0])
    ensures DigitRun(d + rest, 10) == |d|
    ensures RunValue(d + rest, |d|, 10) == DecimalValue(d)
  {
    DigitRunOfDigits(d, rest);
    RunValueExtend(d + rest, |d|);
    assert (d + rest)[..|d|] == d;
  }

  lemma {:induction false} DigitRunOfDigits(d: string, rest: string)
    requires AllDigits(d)
    requires rest == [] || !IsDigit(rest[0])
    ensures DigitRun(d + rest, 10) == |d|
    decreases |d|
  {
    if d != [] {
      DigitRunOfDigits(d[1..], rest);
      assert (d + rest)[1..] == d[1..] + rest;
      assert (d + rest)[0] == d[0];
    } else if rest != [] {
      assert (d + rest)[0] == rest[0];
    }
  }

  lemma RunValueExtend(s: string, n: nat)
    requires n <= DigitRun(s, 10)
    ensures AllDigits(s[..n]) && RunValue(s, n, 10) == DecimalValue(s[..n])
    decreases n
  {
    if n > 0 {
      DigitRunPrefix(s, n - 1, 10);
      RunValueExtend(s, n - 1);
      assert s[..n][..n - 1] == s[..n - 1];
      forall i | 0 <= i < n ensures IsDigit(s[..n][i]) {
        if i < n - 1 {
          assert s[..n][i] == s[..n - 1][i];
        }
      }
    }
  }

  lemma NoSpaceTrim(s: string)
    requires |s| > 0 && IsDigit(s[0])
    ensures TrimStart(s) == s
  {
  }

  lemma ParseUnsignedOfNumeral(n: nat, suffix: string)
    requires suffix == [] || !IsDigit(suffix[0])
    requires n == 0 ==> suffix == [] || (suffix[0] != 'x' && suffix[0] != 'X')
    ensures ParseUnsigned(NatToString(n) + suffix) == Some(n)
  {
    var d := NatToString(n);
    var u := d + suffix;
    assert u[0] == d[0];
    if |d| >= 2 {
      assert d[0] != '0';
    } else if |u| >= 2 {
      assert u[1] == suffix[0];
    }
    assert !(|u| >= 2 && u[0] == '0' && (u[1] == 'x' || u[1] == 'X'));
    DigitRunOfNumeral(d, suffix);
    DecimalRoundTrip(n);
  }

  /** parseInt reads back the numeral of n followed by a non-digit suffix
      ("12h" reads as 12), except when "0" is followed by the hexadecimal marker x. */
  lemma ParseIntOfNumeral(n: nat, suffix: string)
    requires suffix == [] || !IsDigit(suffix[0])
    requires n == 0 ==> suffix == [] || (suffix[0] != 'x' && suffix[0] != 'X')
    ensures ParseInt(NatToString(n) + suffix) == Some(n)
  {
    var d := NatToString(n);
    var s := d + suffix;
    assert s[0] == d[0];
    assert IsDigit(s[0]);
    NoSpaceTrim(s);
    ParseUnsignedOfNumeral(n, suffix);
    assert !(s[0] == '-' || s[0] == '+');
  }
}

/** The pagination arithmetic shared by the catalogue and transaction listings:
    `offset = (page - 1) * limit`, `totalPages = Math.ceil(count / limit)`. */
module Paging {

  /** The number of rows before a page: the pages before it times the page size
      (controllers/admin/bookController.js:11). */
  function Offset(page: nat, limit: nat): (r: nat)
    requires page >= 1
    ensures r == (page - 1) * limit
  {
    (page - 1) * limit
  }

  /** The number of pages of a listing: the count divided by a positive page size, rounded
      up (controllers/admin/bookController.js:36). */
  function TotalPages(count: nat, limit: nat): (r: nat)
    requires limit >= 1
  {
    (count + limit - 1) / limit
  }

  /** totalPages is the ceiling of count / limit: the least number of pages holding count rows. */
  lemma TotalPagesIsCeiling(count: nat, limit: nat)
    requires limit >= 1
    ensures TotalPages(count, limit) * limit >= count
    ensures TotalPages(count, limit) == 0 || (TotalPages(count, limit) - 1) * limit < count
  {
    var r := TotalPages(count, limit);
    var q := count + limit - 1;
    assert q == r * limit + q % limit;
    if r > 0 {
      assert (r - 1) * limit == r * limit - limit;
    }
  }

  /** The rows a LIMIT/OFFSET query returns: the window of `limit` rows from the offset. */
  function Window<T>(rows: seq<T>, page: nat, limit: nat): (r: seq<T>)
    requires page >= 1 && limit >= 1
    ensures |r| <= limit
    ensures forall k :: 0 <= k < |r| ==> Offset(page, limit) + k < |rows| && r[k] == rows[Offset(page, limit) + k]
    ensures Offset(page, limit) + limit <= |rows| ==> |r| == limit
  {
    var off := Offset(page, limit);
    if off >= |rows| then [] else if off + limit <= |rows| then rows[off..off + limit] else rows[off..]
  }

  lemma MulMono(a: nat, b: nat, d: nat)
    requires a <= b
    ensures a * d <= b * d
  {
  }

  lemma DivAtLeast(a: nat, d: nat, x: nat)
    requires d >= 1 && x * d <= a
    ensures x <= a / d
  {
    var q := a / d;
    assert a == q * d + a % d;
    if q < x {
      MulMono(q + 1, x, d);
      assert false;
    }
  }

  /** Every row is on exactly one page: row k is row k % limit of page k / limit + 1,
      and that page is within totalPages. */
  lemma RowOnPage<T>(rows: seq<T>, limit: nat, k: nat) returns (page: nat, slot: nat)
    requires limit >= 1 && k < |rows|
    ensures page == k / limit + 1 && slot == k % limit
    ensures 1 <= page <= TotalPages(|rows|, limit)
    ensures slot < |Window(rows, page, limit)| && Window(rows, page, limit)[slot] == rows[k]
  {
    var q, rem := k / limit, k % limit;
    assert k == q * limit + rem;
    page, slot := q + 1, rem;
    var off := Offset(page, limit);
    assert off == q * limit;
    assert (q + 1) * limit == q * limit + limit;
    DivAtLeast(|rows| + limit - 1, limit, q + 1);
    var w := Window(rows, page, limit);
    assert off + rem == k;
    if off + limit <= |rows| {
      assert |w| == limit;
    } else {
      assert w == rows[off..];
    }
  }
}
