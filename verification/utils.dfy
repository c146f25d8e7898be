/**
 * The small helpers of the library: the demo password encoding and its check,
 * phone formatting, truncation, percentages, the weekend and morning tests on
 * a timestamp, and the Fisher-Yates shuffle.
 */
module Utils {
  import opened Common
  import opened Time
  import Utf8
  import Base64

  // ---------------------------------------------------------------------------
  // Calendar tests
  // ---------------------------------------------------------------------------

  /** `isWeekend`: Sunday (0) or Saturday (6). */
  predicate IsWeekend(t: Timestamp)
  {
    var d := WeekdayOf(t);
    d == 0 || d == 6
  }

  /** `isMorning`: before 10 o'clock. */
  predicate IsMorning(t: Timestamp)
  {
    HourOf(t) < 10
  }

  /** Moving a timestamp by whole days moves its calendar day by as many. */
  lemma DayShift(t: Timestamp, k: int)
    ensures DayOf(t + k * MsPerDay) == DayOf(t) + k
    ensures HourOf(t + k * MsPerDay) == HourOf(t)
  {
    var q, m := t / MsPerDay, t % MsPerDay;
    assert t + k * MsPerDay == (q + k) * MsPerDay + m;
  }

  /**
   * The weekend test repeats weekly, and of seven consecutive days exactly two,
   * the ones reaching Saturday and Sunday, are weekend days.
   */
  lemma WeekendsRecurWeekly(t: Timestamp)
    ensures IsWeekend(t + 7 * MsPerDay) == IsWeekend(t)
    ensures forall k :: 0 <= k < 7 ==>
              (IsWeekend(t + k * MsPerDay) <==> k == (6 - WeekdayOf(t)) % 7 || k == (7 - WeekdayOf(t)) % 7)
    ensures (6 - WeekdayOf(t)) % 7 != (7 - WeekdayOf(t)) % 7
  {
    var w := WeekdayOf(t);
    WeekdayShift(t, 7);
    assert (w + 7) % 7 == w;
    forall k | 0 <= k < 7
      ensures IsWeekend(t + k * MsPerDay) <==> k == (6 - w) % 7 || k == (7 - w) % 7
    {
      WeekdayShift(t, k);
      WeekendOffset(w, k);
    }
  }

  /** Moving `k` whole days on moves the weekday `k` places round the week. */
  lemma WeekdayShift(t: Timestamp, k: int)
    ensures WeekdayOf(t + k * MsPerDay) == (WeekdayOf(t) + k) % 7
  {
    DayShift(t, k);
    var a := DayOf(t) + 4;
    assert a == 7 * (a / 7) + a % 7;
    assert a + k == 7 * (a / 7) + (a % 7 + k);
  }

  /** From weekday `w`, the day `k < 7` places on is a Saturday or a Sunday exactly at the two offsets reaching them. */
  lemma WeekendOffset(w: int, k: int)
    requires 0 <= w < 7 && 0 <= k < 7
    ensures ((w + k) % 7 == 0 || (w + k) % 7 == 6) <==> k == (6 - w) % 7 || k == (7 - w) % 7
  {
    assert (6 - w) % 7 == 6 - w;
    if w == 0 {
      assert (7 - w) % 7 == 0;
    } else {
      assert (7 - w) % 7 == 7 - w;
    }
    if w + k < 7 {
      assert (w + k) % 7 == w + k;
    } else {
      assert (w + k) % 7 == w + k - 7;
    }
  }

  /** A timestamp is in the morning exactly when less than ten hours of its day have passed. */
  lemma MorningIsFirstTenHours(t: Timestamp)
    ensures IsMorning(t) <==> t % MsPerDay < 10 * MsPerHour
  {
  }

  // ---------------------------------------------------------------------------
  // Passwords
  // ---------------------------------------------------------------------------

  /** `hashPassword`: the Base64 text of the password's UTF-8 bytes (an encoding, not a hash). */
  function HashPassword(password: string): (h: string)
    ensures |h| == 4 * ((|Utf8.Encode(password)| + 2) / 3)
  {
    Base64.EncodeLength(Utf8.Encode(password));
    Base64.Encode(Utf8.Encode(password))
  }

  /** `verifyPassword`: the password encodes to the stored text. */
  predicate VerifyPassword(password: string, hash: string)
  {
    HashPassword(password) == hash
  }

  /** The stored text accepts the password it was made from and no other. */
  lemma VerifyPasswordExact(candidate: string, password: string)
    ensures VerifyPassword(candidate, HashPassword(password)) <==> candidate == password
  {
    if VerifyPassword(candidate, HashPassword(password)) {
      Base64.EncodeInjective(Utf8.Encode(candidate), Utf8.Encode(password));
      Utf8.EncodeInjective(candidate, password);
    }
  }

  /** The stored text gives the password back: the encoding hides nothing. */
  lemma HashPasswordReversible(password: string)
    ensures Utf8.Decode(Base64.Decode(HashPassword(password))) == password
  {
    Base64.DecodeEncode(Utf8.Encode(password));
    Utf8.DecodeEncode(password);
  }

  // ---------------------------------------------------------------------------
  // Text
  // ---------------------------------------------------------------------------

  /** The display shape "(ddd) ddd-dddd". */
  predicate IsPhoneShape(r: string)
  {
    && |r| == 14
    && r[0] == '(' && r[4] == ')' && r[5] == ' ' && r[9] == '-'
    && AllDigits(r[1..4]) && AllDigits(r[6..9]) && AllDigits(r[10..])
  }

  predicate NoDigits(s: string) { forall i :: 0 <= i < |s| ==> !IsDigit(s[i]) }

  /** Separator text without digits, then digits, then more text: only the digits and the rest count. */
  lemma SeparatorThenDigits(sep: string, a: string, x: string)
    requires NoDigits(sep)
    requires AllDigits(a)
    ensures DigitsOf(sep + (a + x)) == a + DigitsOf(x)
  {
    DigitsOfConcat(sep, a + x);
    DigitsOfNone(sep);
    DigitsOfConcat(a, x);
    DigitsOfDigits(a);
  }

  /** Three digit groups behind digit-free separators contribute just their digits. */
  lemma {:induction false} DigitsOfGroups(s0: string, a: string, s1: string, b: string, s2: string, c: string)
    requires NoDigits(s0) && NoDigits(s1) && NoDigits(s2)
    requires AllDigits(a) && AllDigits(b) && AllDigits(c)
    ensures DigitsOf(s0 + (a + (s1 + (b + (s2 + c))))) == a + (b + c)
  {
    SeparatorThenDigits(s2, c, []);
    assert c + [] == c;
    SeparatorThenDigits(s1, b, s2 + c);
    SeparatorThenDigits(s0, a, s1 + (b + (s2 + c)));
  }

  lemma DigitsOfLayout(a: string, b: string, c: string)
    requires AllDigits(a) && AllDigits(b) && AllDigits(c)
    ensures DigitsOf("(" + (a + (") " + (b + ("-" + c))))) == a + (b + c)
  {
    assert NoDigits("(") && NoDigits(") ") && NoDigits("-");
    DigitsOfGroups("(", a, ") ", b, "-", c);
  }

  function PhoneLayout(d: string): (r: string)
    requires |d| == 10 && AllDigits(d)
    ensures IsPhoneShape(r)
    ensures DigitsOf(r) == d
  {
    var a, b, c := d[..3], d[3..6], d[6..];
    var r := "(" + (a + (") " + (b + ("-" + c))));
    DigitsOfLayout(a, b, c);
    assert d == a + (b + c);
    assert r[1..4] == a && r[6..9] == b && r[10..] == c;
    r
  }

  /**
   * `formatPhoneNumber`: when the input holds exactly ten digits, the result is
   * "(ddd) ddd-dddd" made of those digits in order; otherwise the input itself.
   */
  function FormatPhoneNumber(phone: string): (r: string)
    ensures |DigitsOf(phone)| == 10 ==> IsPhoneShape(r) && DigitsOf(r) == DigitsOf(phone)
    ensures |DigitsOf(phone)| != 10 ==> r == phone
  {
    var cleaned := DigitsOf(phone);
    if |cleaned| == 10 && AllDigits(cleaned) then PhoneLayout(cleaned) else phone
  }

  /** Formatting a formatted number changes nothing. */
  lemma FormatPhoneNumberIdempotent(phone: string)
    ensures FormatPhoneNumber(FormatPhoneNumber(phone)) == FormatPhoneNumber(phone)
  {
  }

  /**
   * `truncate`: unchanged when it fits; otherwise the first `length`
   * characters (for a negative `length`, all but the last `-length`, as
   * `slice` counts from the end) followed by "...".
   */
  function Truncate(s: string, length: int): (r: string)
    ensures |s| <= length ==> r == s
    ensures 0 <= length < |s| ==> |r| == length + 3 && r[..length] == s[..length] && r[length..] == "..."
    ensures length < 0 ==> var keep := if |s| + length > 0 then |s| + length else 0;
      r == s[..keep] + "..."
  {
    if |s| <= length then s
    else
      var end := if length >= 0 then length else if |s| + length > 0 then |s| + length else 0;
      s[..end] + "..."
  }

  /** Truncation never lengthens a text by more than the ellipsis, and keeps a prefix of it. */
  lemma TruncateKeepsPrefix(s: string, length: int)
    ensures |Truncate(s, length)| <= |s| + 3
    ensures var r := Truncate(s, length); r == s || (r[|r| - 3..] == "..." && r[..|r| - 3] <= s)
  {
  }

  /**
   * `percentage`: `value` as a share of `total`, in percent, rounded to the
   * nearest integer (halves up); 0 when `total` is 0.
   */
  function Percentage(value: int, total: int): (r: int)
    ensures total == 0 ==> r == 0
    ensures total > 0 ==> 2 * r * total - total <= 200 * value < 2 * r * total + total
    ensures total < 0 ==> 2 * r * total + total < 200 * value <= 2 * r * total - total
    ensures 0 <= value <= total && total > 0 ==> 0 <= r <= 100
  {
    if total == 0 then 0
    else if total > 0 then
      var r := RoundRatio(100 * value, total);
      PercentWithinRange(r, value, total);
      r
    else RoundRatio(-100 * value, -total)
  }

  lemma PercentWithinRange(r: int, value: int, total: int)
    requires total > 0
    requires 2 * r * total - total <= 200 * value < 2 * r * total + total
    ensures 0 <= value <= total ==> 0 <= r <= 100
  {
    if 0 <= value <= total {
      if r < 0 {
        ProductBelow(-r, total);
      } else if r > 100 {
        ProductBelow(r - 100, total);
      }
    }
  }

  /** A product of two positive numbers is at least each of them. */
  lemma ProductBelow(a: int, b: int)
    requires a >= 1 && b >= 1
    ensures a * b >= b
  {
  }

  // ---------------------------------------------------------------------------
  // QR codes
  // ---------------------------------------------------------------------------

  /** The characters `encodeURIComponent` leaves as they are. */
  predicate Unreserved(c: char)
  {
    ('A' <= c <= 'Z') || ('a' <= c <= 'z') || ('0' <= c <= '9') ||
    c == '-' || c == '_' || c == '.' || c == '!' || c == '~' || c == '*' || c == '\'' || c == '(' || c == ')'
  }

  /** An upper-case hexadecimal digit. */
  function HexDigit(n: nat): (c: char)
    requires n < 16
    ensures HexValue(c) == n
  {
    if n < 10 then ('0' as int + n) as char else ('A' as int + n - 10) as char
  }

  function HexValue(c: char): nat
  {
    if '0' <= c <= '9' then c as int - '0' as int
    else if 'A' <= c <= 'F' then c as int - 'A' as int + 10
    else 0
  }

  predicate IsHexDigit(c: char)
  {
    ('0' <= c <= '9') || ('A' <= c <= 'F')
  }

  /** What an encoded text is made of: unreserved characters and `%` escapes. */
  predicate UriSafe(t: string)
  {
    forall i :: 0 <= i < |t| ==> Unreserved(t[i]) || t[i] == '%' || IsHexDigit(t[i])
  }

  /** Each byte as `%` and two upper-case hexadecimal digits. */
  function PercentEncode(bs: seq<byte>): (r: string)
    ensures |r| == 3 * |bs|
    ensures UriSafe(r)
  {
    if |bs| == 0 then []
    else Escape(bs[0]) + PercentEncode(bs[1..])
  }

  function EncodeUriChar(c: char): (r: string)
    ensures UriSafe(r)
  {
    if Unreserved(c) then [c] else PercentEncode(Utf8.EncodeChar(c))
  }

  /**
   * `encodeURIComponent`: unreserved characters stay, every other character
   * becomes the `%` escapes of its UTF-8 bytes.
   */
  function EncodeUriComponent(s: string): (r: string)
    ensures UriSafe(r)
    ensures (forall i :: 0 <= i < |s| ==> Unreserved(s[i])) ==> r == s
  {
    if |s| == 0 then []
    else EncodeUriChar(s[0]) + EncodeUriComponent(s[1..])
  }

  /** The bytes an encoded text stands for: each escape one byte, each other character its code. */
  function UriBytes(t: string): seq<byte>
  {
    if |t| == 0 then []
    else if t[0] == '%' && |t| >= 3 then [(16 * HexValue(t[1]) + HexValue(t[2])) % 256] + UriBytes(t[3..])
    else [t[0] as int % 256] + UriBytes(t[1..])
  }

  /** Reading an encoded text back: its bytes, decoded as UTF-8. */
  function DecodeUriComponent(t: string): string
  {
    Utf8.Decode(UriBytes(t))
  }

  lemma {:induction false} PercentEncodeBytes(bs: seq<byte>, rest: string)
    ensures UriBytes(PercentEncode(bs) + rest) == bs + UriBytes(rest)
  {
    if |bs| > 0 {
      var tail := PercentEncode(bs[1..]) + rest;
      assert UriBytes(PercentEncode(bs) + rest) == [bs[0]] + UriBytes(tail) by {
        assert PercentEncode(bs) + rest == Escape(bs[0]) + tail;
        EscapeBytes(bs[0], tail);
      }
      PercentEncodeBytes(bs[1..], rest);
      assert bs == [bs[0]] + bs[1..];
    } else {
      assert PercentEncode(bs) + rest == rest;
    }
  }

  /** One byte's escape. */
  function Escape(x: byte): string
  {
    ['%', HexDigit(x / 16), HexDigit(x % 16)]
  }

  lemma EscapeBytes(x: byte, rest: string)
    ensures UriBytes(Escape(x) + rest) == [x] + UriBytes(rest)
  {
    var t := Escape(x) + rest;
    assert t[0] == '%' && t[1] == HexDigit(x / 16) && t[2] == HexDigit(x % 16);
    assert t[3..] == rest;
    assert (16 * HexValue(t[1]) + HexValue(t[2])) % 256 == x;
  }

  lemma EncodeUriCharBytes(c: char, rest: string)
    ensures UriBytes(EncodeUriChar(c) + rest) == Utf8.EncodeChar(c) + UriBytes(rest)
  {
    if Unreserved(c) {
      assert ([c] + rest)[1..] == rest;
    } else {
      PercentEncodeBytes(Utf8.EncodeChar(c), rest);
    }
  }

  lemma {:induction false} EncodeUriComponentBytes(s: string)
    ensures UriBytes(EncodeUriComponent(s)) == Utf8.Encode(s)
  {
    if |s| > 0 {
      EncodeUriComponentBytes(s[1..]);
      EncodeUriCharBytes(s[0], EncodeUriComponent(s[1..]));
    }
  }

  /** Decoding undoes the encoding: the text inside a QR code gives back its data. */
  lemma EncodeUriComponentRoundTrip(s: string)
    ensures DecodeUriComponent(EncodeUriComponent(s)) == s
  {
    EncodeUriComponentBytes(s);
    Utf8.DecodeEncode(s);
  }

  const QrPrefix: string :=
    "data:image/svg+xml,<svg xmlns=\"http://www.w3.org/2000/svg\" viewBox=\"0 0 100 100\"><text x=\"50\" y=\"50\" text-anchor=\"middle\">"
  const QrSuffix: string := "</text></svg>"

  /**
   * `generateQRCode`: the demo image, an SVG data URL whose text element holds
   * the encoded data; the encoded part cannot close the element early, and it
   * decodes back to the data.
   */
  function GenerateQrCode(data: string): (r: string)
    ensures |r| >= |QrPrefix| + |QrSuffix|
    ensures r[..|QrPrefix|] == QrPrefix && r[|r| - |QrSuffix|..] == QrSuffix
    ensures var body := r[|QrPrefix|..|r| - |QrSuffix|];
            '<' !in body && DecodeUriComponent(body) == data
  {
    var body := EncodeUriComponent(data);
    EncodeUriComponentRoundTrip(data);
    var r := QrPrefix + body + QrSuffix;
    assert r[|QrPrefix|..|r| - |QrSuffix|] == body;
    r
  }

  // ---------------------------------------------------------------------------
  // Shuffle
  // ---------------------------------------------------------------------------

  /** The sequence with positions `i` and `j` exchanged. */
  function Swap<T>(s: seq<T>, i: nat, j: nat): (r: seq<T>)
    requires i < |s| && j < |s|
    ensures |r| == |s|
    ensures multiset(r) == multiset(s)
  {
    s[i := s[j]][j := s[i]]
  }

  lemma ScaleBelow(x: real, n: real)
    requires 0.0 <= x < 1.0 && n > 0.0
    ensures 0.0 <= x * n < n
  {
    assert (1.0 - x) * n > 0.0;
  }

  /** `Math.floor(roll * n)` for a roll in [0, 1): a position below `n`. */
  function ScaledIndex(roll: real, n: nat): (j: nat)
    requires 0.0 <= roll < 1.0 && n > 0
    ensures j < n
  {
    var x := roll * n as real;
    ScaleBelow(roll, n as real);
    assert x.Floor as real <= x < n as real;
    x.Floor
  }

  /**
   * `randomElement`: the element at `Math.floor(roll * arr.length)`; on an
   * empty array that index reads nothing (`undefined`).
   */
  function RandomElement<T>(arr: seq<T>, roll: real): (r: Option<T>)
    requires 0.0 <= roll < 1.0
    ensures r.Some? <==> |arr| > 0
    ensures r.Some? ==> r.value in arr
  {
    if |arr| == 0 then None else Some(arr[ScaledIndex(roll, |arr|)])
  }

  /** Every element can be drawn: the roll `k / n` picks position `k`. */
  lemma RandomElementReachesEvery<T>(arr: seq<T>, k: nat)
    requires k < |arr|
    ensures 0.0 <= k as real / |arr| as real < 1.0
    ensures RandomElement(arr, k as real / |arr| as real) == Some(arr[k])
  {
    var n := |arr| as real;
    var roll := k as real / n;
    DivideBack(k as real, n);
    RatioBelowOne(k as real, n);
    assert roll * n == k as real;
    assert ScaledIndex(roll, |arr|) == k;
  }

  lemma DivideBack(a: real, b: real)
    requires b > 0.0
    ensures (a / b) * b == a && (a >= 0.0 ==> a / b >= 0.0)
  {
  }

  lemma RatioBelowOne(a: real, b: real)
    requires 0.0 <= a < b
    ensures a / b < 1.0
  {
    assert (1.0 - a / b) * b == b - a;
  }

  /**
   * `shuffleArray`: Fisher-Yates from the last position down. `rolls[i]` is
   * the `Math.random()` drawn when position `i` is filled; it picks a position
   * `j <= i` to swap with. The result is a rearrangement of the input, which
   * itself is left as it was (sequences are values).
   */
  method ShuffleArray<T>(arr: seq<T>, rolls: seq<real>) returns (r: seq<T>)
    requires |rolls| == |arr|
    requires forall k :: 0 <= k < |rolls| ==> 0.0 <= rolls[k] < 1.0
    ensures |r| == |arr|
    ensures multiset(r) == multiset(arr)
  {
    r := arr;
    var i := |r| - 1;
    while i > 0
      invariant i < |arr|
      invariant |r| == |arr|
      invariant multiset(r) == multiset(arr)
    {
      var j := ScaledIndex(rolls[i], i + 1);
      r := Swap(r, i, j);
      i := i - 1;
    }
  }
}
