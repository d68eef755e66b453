/** print_num (lib/print.c): an unsigned number, with sign and padding, in a base from 2 to 16. */
module PrintNum {

  function Digit(d: nat, upcase: bool): (c: char)
    requires d < 16
    ensures c != '-' && c != ' '
  {
    if d <= 9 then '0' + d as char else (if upcase then 'A' else 'a') + (d - 10) as char
  }

  /** The number, most significant digit first. */
  function Digits(u: nat, base: nat, upcase: bool): (s: string)
    requires 2 <= base <= 16
    ensures s != ""
  {
    if u < base then [Digit(u, upcase)] else Digits(u / base, base, upcase) + [Digit(u % base, upcase)]
  }

  function Repeat(c: char, n: nat): (s: string)
    ensures |s| == n && forall i :: 0 <= i < n ==> s[i] == c
  {
    if n == 0 then "" else Repeat(c, n - 1) + [c]
  }

  function Sign(neg: bool): string { if neg then "-" else "" }

  function Padding(d: string, neg: bool, width: nat): nat {
    var actual := |d| + |Sign(neg)|;
    if width > actual then width - actual else 0
  }

  /** The padding is blank and on the right, or zeros behind the sign, or before everything. */
  function Layout(d: string, neg: bool, width: nat, ladjust: bool, padc: char): string {
    var pad := Padding(d, neg, width);
    if ladjust then Sign(neg) + d + Repeat(' ', pad)
    else if neg && padc == '0' then "-" + Repeat('0', pad) + d
    else Repeat(padc, pad) + Sign(neg) + d
  }

  function Format(u: nat, base: nat, neg: bool, width: nat, ladjust: bool, padc: char, upcase: bool): string
    requires 2 <= base <= 16
  {
    Layout(Digits(u, base, upcase), neg, width, ladjust, padc)
  }

  // ----- Reading it back -----

  function Value(c: char): int {
    if '0' <= c <= '9' then c as int - '0' as int
    else if 'a' <= c <= 'f' then c as int - 'a' as int + 10
    else if 'A' <= c <= 'F' then c as int - 'A' as int + 10
    else -1
  }

  /** The digits at the head of `s`, after `acc`. */
  function ReadDigits(s: string, base: nat, acc: nat): nat {
    if s == "" || Value(s[0]) < 0 then acc else ReadDigits(s[1..], base, acc * base + Value(s[0]))
  }

  /** Blanks, perhaps a minus, digits; whatever follows is ignored. */
  function Read(s: string, base: nat): int {
    if s == "" then 0
    else if s[0] == ' ' then Read(s[1..], base)
    else if s[0] == '-' then 0 - ReadDigits(s[1..], base, 0)
    else ReadDigits(s, base, 0)
  }

  lemma ReadOne(u: nat, base: nat, upcase: bool, rest: string)
    requires 2 <= base <= 16
    ensures ReadDigits([Digit(u % base, upcase)] + rest, base, u / base) == ReadDigits(rest, base, u)
  {
    var c := Digit(u % base, upcase);
    assert Value(c) == u % base;
    assert ([c] + rest)[1..] == rest;
    assert u / base * base + u % base == u;
  }

  lemma Assoc(a: string, b: string, c: string)
    ensures (a + b) + c == a + (b + c)
  {
  }

  lemma Times(q: nat, base: nat)
    requires base >= 2
    ensures q > 0 ==> q * base >= base
    ensures q * base >= 2 * q
  {
    assert q * base == 2 * q + q * (base - 2);
    assert q > 0 ==> q * base == base + (q - 1) * base;
  }

  lemma Quotient(u: nat, base: nat)
    requires base >= 2
    ensures u < base ==> u / base == 0 && u % base == u
    ensures u >= base ==> u / base <= u / 2 && u / base > 0
  {
    var q, r := u / base, u % base;
    assert u == q * base + r;
    Times(q, base);
    if q == 0 {
      assert q * base == 0;
    }
  }

  lemma {:induction false} ReadDigitsBack(u: nat, base: nat, upcase: bool, rest: string)
    requires 2 <= base <= 16
    ensures ReadDigits(Digits(u, base, upcase) + rest, base, 0) == ReadDigits(rest, base, u)
    decreases u
  {
    ReadOne(u, base, upcase, rest);
    Quotient(u, base);
    if u >= base {
      Assoc(Digits(u / base, base, upcase), [Digit(u % base, upcase)], rest);
      ReadDigitsBack(u / base, base, upcase, [Digit(u % base, upcase)] + rest);
    }
  }

  lemma {:induction false} ReadZeros(n: nat, s: string, base: nat)
    ensures ReadDigits(Repeat('0', n) + s, base, 0) == ReadDigits(s, base, 0)
  {
    if n == 0 {
      assert Repeat('0', 0) + s == s;
    } else {
      assert (Repeat('0', n) + s)[1..] == Repeat('0', n - 1) + s;
      ReadZeros(n - 1, s, base);
    }
  }

  lemma {:induction false} ReadBlanks(n: nat, s: string, base: nat)
    ensures Read(Repeat(' ', n) + s, base) == Read(s, base)
  {
    if n == 0 {
      assert Repeat(' ', 0) + s == s;
    } else {
      assert (Repeat(' ', n) + s)[1..] == Repeat(' ', n - 1) + s;
      ReadBlanks(n - 1, s, base);
    }
  }

  lemma DigitsLast(u: nat, base: nat, upcase: bool)
    requires 2 <= base <= 16
    ensures var c := [Digit(u % base, upcase)];
      Digits(u, base, upcase) == if u / base != 0 then Digits(u / base, base, upcase) + c else c
  {
    Quotient(u, base);
  }

  /** No leading zero but for the number 0. */
  lemma {:induction false} DigitsHead(u: nat, base: nat, upcase: bool)
    requires 2 <= base <= 16
    ensures Digits(u, base, upcase)[0] != ' ' && Digits(u, base, upcase)[0] != '-'
    ensures Digits(u, base, upcase)[0] == '0' ==> u == 0
    decreases u
  {
    DigitsLast(u, base, upcase);
    Quotient(u, base);
    if u / base != 0 {
      DigitsHead(u / base, base, upcase);
    }
  }

  /** Sign, zeros and digits read back, whatever blanks follow. */
  lemma ReadSigned(u: nat, base: nat, neg: bool, upcase: bool, zeros: nat, blanks: nat)
    requires 2 <= base <= 16
    ensures var s := Sign(neg) + (Repeat('0', zeros) + (Digits(u, base, upcase) + Repeat(' ', blanks)));
      Read(s, base) == if neg then 0 - u else u
  {
    var d := Digits(u, base, upcase);
    var tail := d + Repeat(' ', blanks);
    ReadDigitsBack(u, base, upcase, Repeat(' ', blanks));
    ReadZeros(zeros, tail, base);
    var body := Repeat('0', zeros) + tail;
    if neg {
      assert ("-" + body)[1..] == body;
    } else {
      DigitsHead(u, base, upcase);
      assert tail[0] == d[0];
      assert Sign(false) + body == body && body[0] == if zeros > 0 then '0' else d[0];
    }
  }

  lemma ZerosInside(d: string, neg: bool, width: nat, ladjust: bool, padc: char)
    requires ladjust || padc == '0'
    ensures var pad := Padding(d, neg, width);
      Layout(d, neg, width, ladjust, padc) ==
        Sign(neg) + (Repeat('0', if ladjust then 0 else pad) + (d + Repeat(' ', if ladjust then pad else 0)))
  {
    var pad := Padding(d, neg, width);
    if ladjust {
      assert Repeat('0', 0) + (d + Repeat(' ', pad)) == d + Repeat(' ', pad);
    } else {
      assert d + Repeat(' ', 0) == d;
    }
  }

  lemma BlanksBefore(d: string, neg: bool, width: nat)
    ensures Layout(d, neg, width, false, ' ') ==
      Repeat(' ', Padding(d, neg, width)) + (Sign(neg) + (Repeat('0', 0) + (d + Repeat(' ', 0))))
  {
    assert Repeat('0', 0) + (d + Repeat(' ', 0)) == d;
  }

  /** With the paddings that vprintfmt asks for, the output reads back as the number. */
  lemma ReadsBack(u: nat, base: nat, neg: bool, width: nat, ladjust: bool, padc: char, upcase: bool)
    requires 2 <= base <= 16 && (padc == ' ' || padc == '0')
    ensures Read(Format(u, base, neg, width, ladjust, padc, upcase), base) == if neg then 0 - u else u
  {
    var d := Digits(u, base, upcase);
    var pad := Padding(d, neg, width);
    if ladjust || padc == '0' {
      ZerosInside(d, neg, width, ladjust, padc);
      ReadSigned(u, base, neg, upcase, if ladjust then 0 else pad, if ladjust then pad else 0);
    } else {
      BlanksBefore(d, neg, width);
      ReadSigned(u, base, neg, upcase, 0, 0);
      ReadBlanks(pad, Sign(neg) + (Repeat('0', 0) + (d + Repeat(' ', 0))), base);
    }
  }

  /** As vprintfmt prints %d: the sign apart, and the magnitude as an unsigned number. */
  lemma DecimalReadsBack(n: int, width: nat, ladjust: bool, padc: char)
    requires padc == ' ' || padc == '0'
    ensures Read(Format(if n < 0 then -n else n, 10, n < 0, width, ladjust, padc, false), 10) == n
  {
    ReadsBack(if n < 0 then -n else n, 10, n < 0, width, ladjust, padc, false);
  }

  /** The output is as wide as asked, or as the number with its sign if that is wider. */
  lemma WidthIs(u: nat, base: nat, neg: bool, width: nat, ladjust: bool, padc: char, upcase: bool)
    requires 2 <= base <= 16
    ensures var actual := |Digits(u, base, upcase)| + if neg then 1 else 0;
      |Format(u, base, neg, width, ladjust, padc, upcase)| == if width > actual then width else actual
  {
  }

  /** The output for width 0. */
  function Bare(u: nat, base: nat, neg: bool, upcase: bool): string
    requires 2 <= base <= 16
  {
    Format(u, base, neg, 0, false, ' ', upcase)
  }

  lemma BareIs(u: nat, base: nat, neg: bool, upcase: bool)
    requires 2 <= base <= 16
    ensures Bare(u, base, neg, upcase) == Sign(neg) + Digits(u, base, upcase)
    ensures neg <==> Bare(u, base, neg, upcase)[0] == '-'
  {
    DigitsHead(u, base, upcase);
  }

  /** On the left side there are blanks behind it. */
  lemma PaddedBehind(u: nat, base: nat, neg: bool, width: nat, padc: char, upcase: bool)
    requires 2 <= base <= 16
    ensures var s := Format(u, base, neg, width, true, padc, upcase); var n := |Bare(u, base, neg, upcase)|;
      n <= |s| && s[..n] == Bare(u, base, neg, upcase) && forall i :: n <= i < |s| ==> s[i] == ' '
  {
    BareIs(u, base, neg, upcase);
    PadBehind(Bare(u, base, neg, upcase), Padding(Digits(u, base, upcase), neg, width));
  }

  /** On the right side the padding is before it, ... */
  lemma PaddedBefore(u: nat, base: nat, neg: bool, width: nat, padc: char, upcase: bool)
    requires 2 <= base <= 16 && !(neg && padc == '0')
    ensures var s := Format(u, base, neg, width, false, padc, upcase); var n := |Bare(u, base, neg, upcase)|;
      n <= |s| && s[|s| - n..] == Bare(u, base, neg, upcase) && forall i :: 0 <= i < |s| - n ==> s[i] == padc
  {
    BareIs(u, base, neg, upcase);
    var d := Digits(u, base, upcase);
    Assoc(Repeat(padc, Padding(d, neg, width)), Sign(neg), d);
    PadBefore(Repeat(padc, Padding(d, neg, width)), Bare(u, base, neg, upcase));
  }

  /** ... but zeros stand between the minus and the digits. */
  lemma PaddedInside(u: nat, base: nat, width: nat, upcase: bool)
    requires 2 <= base <= 16
    ensures var s := Format(u, base, true, width, false, '0', upcase); var n := |Bare(u, base, true, upcase)|;
      n <= |s| && s[0] == '-' && s[|s| - n + 1..] == Bare(u, base, true, upcase)[1..]
      && forall i :: 0 < i <= |s| - n ==> s[i] == '0'
  {
    BareIs(u, base, true, upcase);
    var d := Digits(u, base, upcase);
    PadBefore("-" + Repeat('0', Padding(d, true, width)), d);
    assert Bare(u, base, true, upcase)[1..] == d;
  }

  lemma PadBehind(a: string, n: nat)
    ensures var s := a + Repeat(' ', n); s[..|a|] == a && forall i :: |a| <= i < |s| ==> s[i] == ' '
  {
  }

  lemma PadBefore(a: string, b: string)
    ensures var s := a + b; s[|s| - |b|..] == b && forall i :: 0 <= i < |a| ==> s[i] == a[i]
  {
  }

  /** The digits beyond 9 are letters of the case asked for. */
  lemma {:induction false} CaseIs(u: nat, base: nat, upcase: bool)
    requires 2 <= base <= 16
    ensures forall i :: 0 <= i < |Digits(u, base, upcase)| ==>
      var c := Digits(u, base, upcase)[i];
      '0' <= c <= '9' || if upcase then 'A' <= c <= 'F' else 'a' <= c <= 'f'
    decreases u
  {
    DigitsLast(u, base, upcase);
    Quotient(u, base);
    if u / base != 0 {
      CaseIs(u / base, base, upcase);
    }
  }

  function Pow2(n: nat): nat { if n == 0 then 1 else 2 * Pow2(n - 1) }

  /** No more digits than bits. */
  lemma {:induction false} DigitsShort(u: nat, base: nat, upcase: bool, bits: nat)
    requires 2 <= base <= 16 && u < Pow2(bits) && 0 < bits
    ensures |Digits(u, base, upcase)| <= bits
    decreases u
  {
    if u >= base {
      assert u / base <= u / 2;
      assert bits > 1;
      DigitsShort(u / base, base, upcase, bits - 1);
    }
  }

  // ----- As it runs -----

  function Rev(s: string): (r: string)
    ensures |r| == |s|
  {
    if s == "" then "" else Rev(s[1..]) + [s[0]]
  }

  lemma {:induction false} RevAppend(a: string, b: string)
    ensures Rev(a + b) == Rev(b) + Rev(a)
  {
    if a == "" {
      assert a + b == b;
    } else {
      assert (a + b)[1..] == a[1..] + b;
      RevAppend(a[1..], b);
    }
  }

  lemma {:induction false} RevAt(s: string, k: nat)
    requires k < |s|
    ensures Rev(s)[k] == s[|s| - 1 - k]
  {
    if k < |s| - 1 {
      RevAt(s[1..], k);
    }
  }

  lemma RevRepeat(c: char, n: nat)
    ensures Rev(Repeat(c, n)) == Repeat(c, n)
  {
    forall k: nat | k < n ensures Rev(Repeat(c, n))[k] == c {
      RevAt(Repeat(c, n), k);
    }
  }

  lemma RevNext(all: string, left: string, c: char, was: string)
    requires all == left + [c]
    ensures all + Rev(was) == left + Rev(was + [c])
  {
    RevAppend(was, [c]);
    Assoc(left, [c], Rev(was));
  }

  lemma DigitsNext(u: nat, base: nat, upcase: bool, was: string)
    requires 2 <= base <= 16
    ensures Digits(u, base, upcase) + Rev(was) ==
      (if u / base != 0 then Digits(u / base, base, upcase) else "") + Rev(was + [Digit(u % base, upcase)])
  {
    DigitsLast(u, base, upcase);
    var left := if u / base != 0 then Digits(u / base, base, upcase) else "";
    RevNext(Digits(u, base, upcase), left, Digit(u % base, upcase), was);
  }

  /** What is left of the number while the loop runs. */
  function Left(more: bool, u: nat, base: nat, upcase: bool): string
    requires 2 <= base <= 16
  {
    if more then Digits(u, base, upcase) else ""
  }

  method PutDigit(buf: array<char>, p: nat, tmp: nat, upcase: bool) returns (r: nat)
    requires p < buf.Length && tmp < 16
    modifies buf
    ensures r == p + 1 && buf[..r] == old(buf[..p]) + [Digit(tmp, upcase)]
  {
    if tmp <= 9 {
      buf[p] := '0' + tmp as char;
    } else if upcase {
      buf[p] := 'A' + (tmp - 10) as char;
    } else {
      buf[p] := 'a' + (tmp - 10) as char;
    }
    r := p + 1;
  }

  /** The digits, least significant first. */
  method PutDigits(buf: array<char>, u0: nat, base: nat, upcase: bool) returns (p: nat)
    requires 2 <= base <= 16 && u0 < Pow2(32) && buf.Length >= 32
    modifies buf
    ensures p <= 32 && Rev(buf[..p]) == Digits(u0, base, upcase)
  {
    DigitsShort(u0, base, upcase, 32);
    ghost var all := Digits(u0, base, upcase);
    var u: nat, more := u0, true;
    p := 0;
    while more
      invariant p <= |all| <= 32 && (more ==> p < |all|)
      invariant all == Left(more, u, base, upcase) + Rev(buf[..p])
      decreases more, u
    {
      ghost var was := buf[..p];
      DigitsNext(u, base, upcase, was);
      Quotient(u, base);
      p := PutDigit(buf, p, u % base, upcase);
      u := u / base;
      more := u != 0;
    }
  }

  method Fill(buf: array<char>, from: nat, to: nat, c: char)
    requires from <= to <= buf.Length
    modifies buf
    ensures buf[..to] == old(buf[..from]) + Repeat(c, to - from)
  {
    var i := from;
    while i < to
      invariant from <= i <= to && buf[..i] == old(buf[..from]) + Repeat(c, i - from)
    {
      buf[i] := c;
      i := i + 1;
    }
  }

  method Reverse(buf: array<char>, n: nat)
    requires 0 < n <= buf.Length
    modifies buf
    ensures buf[..n] == Rev(old(buf[..n])) && forall k :: n <= k < buf.Length ==> buf[k] == old(buf[k])
  {
    var begin, end := 0, n - 1;
    while end > begin
      invariant 0 <= begin && end == n - 1 - begin && begin <= end + 1
      invariant forall k :: begin <= k <= end || n <= k < buf.Length ==> buf[k] == old(buf[k])
      invariant forall k :: 0 <= k < begin || end < k < n ==> buf[k] == old(buf[n - 1 - k])
    {
      buf[begin], buf[end] := buf[end], buf[begin];
      begin, end := begin + 1, end - 1;
    }
    forall k: nat | k < n ensures buf[..n][k] == Rev(old(buf[..n]))[k] {
      RevAt(old(buf[..n]), k);
    }
  }

  /** The padding, behind the digits while these are still reversed. */
  method Pad(buf: array<char>, p: nat, length: nat, neg: bool, ladjust: bool, padc: char, ghost low: string)
    requires 0 < p <= length <= buf.Length && buf[..p] == low + Sign(neg)
    modifies buf
    ensures buf[..length] == if neg && !ladjust && padc == '0' then low + Repeat('0', length - p) + "-"
                             else low + Sign(neg) + Repeat(padc, length - p)
  {
    if neg && !ladjust && padc == '0' {
      assert buf[..p - 1] == buf[..p][..p - 1] == low;
      Fill(buf, p - 1, length - 1, padc);
      buf[length - 1] := '-';
    } else {
      Fill(buf, p, length, padc);
    }
  }

  /** What reversing does to the padded buffer. */
  lemma Reversed(low: string, neg: bool, c: char, n: nat)
    ensures Rev(low + Sign(neg) + Repeat(c, n)) == Repeat(c, n) + Sign(neg) + Rev(low)
    ensures Rev(low + Repeat(c, n) + "-") == "-" + Repeat(c, n) + Rev(low)
    ensures Rev(low + Sign(neg)) == Sign(neg) + Rev(low)
  {
    RevRepeat(c, n);
    RevAppend(low, Sign(neg));
    RevAppend(low + Sign(neg), Repeat(c, n));
    Assoc(Repeat(c, n), Sign(neg), Rev(low));
    RevAppend(low + Repeat(c, n), "-");
    RevAppend(low, Repeat(c, n));
    Assoc("-", Repeat(c, n), Rev(low));
  }

  /** Padding, reversing and sending off. */
  method Finish(buf: array<char>, p: nat, width: nat, neg: bool, ladjust: bool, padc0: char, ghost low: string)
    returns (out: string)
    requires 0 < p <= buf.Length && width <= buf.Length && buf[..p] == low + Sign(neg)
    modifies buf
    ensures out == Layout(Rev(low), neg, width, ladjust, padc0)
  {
    var length := if width < p then p else width;
    var padc := if ladjust then ' ' else padc0;
    assert length - p == Padding(Rev(low), neg, width);
    Pad(buf, p, length, neg, ladjust, padc, low);
    Reversed(low, neg, padc, length - p);
    ghost var was := buf[..length];
    if ladjust {
      assert was[..p] == low + Sign(neg) && was[p..] == Repeat(' ', length - p);
      assert buf[..p] == was[..p];
      Reverse(buf, p);
      assert buf[..length] == Rev(was[..p]) + was[p..];
    } else {
      Reverse(buf, length);
    }
    out := buf[..length];
  }

  /** unsigned long has 32 bits; the buffer has 70 characters more than the width asked for. */
  method Print(u: nat, base: nat, neg: bool, width: nat, ladjust: bool, padc: char, upcase: bool)
    returns (out: string)
    requires 2 <= base <= 16 && u < Pow2(32)
    ensures out == Format(u, base, neg, width, ladjust, padc, upcase)
  {
    var buf := new char[width + 70];
    var p := PutDigits(buf, u, base, upcase);
    ghost var low := buf[..p];
    if neg {
      buf[p] := '-';
      p := p + 1;
    }
    assert buf[..p] == low + Sign(neg);
    out := Finish(buf, p, width, neg, ladjust, padc, low);
  }
}
