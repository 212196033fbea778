/** Text primitives the driver is built on, stated the way the C library
    performs them: NUL-terminated strings, `strstr`/`strchr` search,
    `%u` rendering of integers and `atoi`. */
module CText {

  datatype Option<+T> = None | Some(value: T)

  /** Fixed-width integer types of the C interface. */
  type u8 = x: int | 0 <= x < 0x100
  type u16 = x: int | 0 <= x < 0x1_0000
  type u32 = x: int | 0 <= x < 0x1_0000_0000
  type i32 = x: int | -0x8000_0000 <= x < 0x8000_0000

  /** A C string holds no NUL character: the first NUL ends it. */
  predicate NoNul(s: string) {
    '\0' !in s
  }

  type CString = s: string | NoNul(s)

  /** The text `strcat` copies out of a raw, NUL-padded buffer: everything
      before the first NUL. */
  function UpToNul(raw: string): (r: CString)
    ensures r <= raw
    ensures |r| < |raw| ==> raw[|r|] == '\0'
    ensures NoNul(raw) ==> r == raw
  {
    if raw == [] || raw[0] == '\0' then [] else [raw[0]] + UpToNul(raw[1..])
  }

  /** `pat` occurs in `s` starting at index `k`. */
  predicate IsAt(s: string, pat: string, k: int) {
    0 <= k && k + |pat| <= |s| && s[k..k + |pat|] == pat
  }

  /** `strstr(s + from, pat)`: the first index at or after `from` where
      `pat` occurs. An empty `pat` is
      found where the search starts; a search starting past the end of the
      string finds nothing. */
  function FindFrom(s: string, pat: string, from: nat): (r: Option<nat>)
    ensures r.Some? ==> from <= r.value && IsAt(s, pat, r.value)
    ensures r.Some? ==> forall k :: from <= k < r.value ==> !IsAt(s, pat, k)
    ensures r.None? ==> forall k :: from <= k ==> !IsAt(s, pat, k)
    decreases |s| - from
  {
    if from + |pat| > |s| then None
    else if s[from..from + |pat|] == pat then Some(from)
    else FindFrom(s, pat, from + 1)
  }

  /** The first occurrence at or after `from` is what the search finds. */
  lemma FindFromFirst(s: string, pat: string, from: nat, k: nat)
    requires from <= k && IsAt(s, pat, k)
    requires forall m :: from <= m < k ==> !IsAt(s, pat, m)
    ensures FindFrom(s, pat, from) == Some(k)
  {
  }

  /** `strstr(s, pat)`, as `_bc66_at_parser` calls it (src/bc66_drv.c:366). */
  function Find(s: string, pat: string): Option<nat> {
    FindFrom(s, pat, 0)
  }

  /** `strchr(s + from, c)`: the first index at or after `from` holding
      `c`. */
  function FindChar(s: string, c: char, from: nat): (r: Option<nat>)
    ensures r.Some? ==> from <= r.value < |s| && s[r.value] == c
    decreases |s| - from
  {
    if from >= |s| then None
    else if s[from] == c then Some(from)
    else FindChar(s, c, from + 1)
  }

  /** Searching for a character is searching for the one-character string. */
  lemma {:induction false} FindCharIsFindFrom(s: string, c: char, from: nat)
    ensures FindChar(s, c, from) == FindFrom(s, [c], from)
    decreases |s| - from
  {
    if from < |s| {
      assert s[from..from + 1] == [s[from]];
      FindCharIsFindFrom(s, c, from + 1);
    }
  }

  /** Locating a character: if `c` is absent from `s[from..from + n]` and sits
      at `from + n`, a search from `from` lands there. */
  lemma {:induction false} FindCharAt(s: string, c: char, from: nat, n: nat)
    requires from + n < |s| && s[from + n] == c
    requires forall k :: from <= k < from + n ==> s[k] != c
    ensures FindChar(s, c, from) == Some(from + n)
    decreases n
  {
    if n > 0 {
      FindCharAt(s, c, from + 1, n - 1);
    }
  }

  /** A line whose body holds no carriage return is terminated exactly
      once: the first "\r\n" is the one appended. */
  lemma TerminatorOnlyAtEnd(body: string)
    requires '\r' !in body
    ensures Find(body + "\r\n", "\r\n") == Some(|body|)
  {
    var f := body + "\r\n";
    assert f[|body|..|body| + 2] == "\r\n";
    assert IsAt(f, "\r\n", |body|);
    forall k | 0 <= k < |body|
      ensures !IsAt(f, "\r\n", k)
    {
      assert f[k] == body[k];
      if k + 2 <= |f| {
        assert f[k..k + 2][0] == f[k];
      }
    }
  }

  /** A search for a character absent from the rest of the string finds
      nothing. */
  lemma {:induction false} FindCharAbsent(s: string, c: char, from: nat)
    requires from <= |s| && c !in s[from..]
    ensures FindChar(s, c, from).None?
    decreases |s| - from
  {
    if from < |s| {
      assert s[from] == s[from..][0];
      assert s[from + 1..] == s[from..][1..];
      FindCharAbsent(s, c, from + 1);
    }
  }

  predicate IsDigit(c: char) {
    '0' <= c <= '9'
  }

  predicate AllDigits(s: string) {
    forall k :: 0 <= k < |s| ==> IsDigit(s[k])
  }

  function DigitChar(d: nat): (c: char)
    requires d < 10
    ensures IsDigit(c)
  {
    ('0' as int + d) as char
  }

  /** `%u` of a value that fits: decimal digits, most significant first,
      without leading zeros. */
  function Dec(n: nat): (r: CString)
    ensures 1 <= |r| && AllDigits(r)
    ensures |r| > 1 ==> r[0] != '0'
    decreases n
  {
    if n < 10 then [DigitChar(n)] else Dec(n / 10) + [DigitChar(n % 10)]
  }

  /** `%u` of a 32-bit `int` argument: negative values print as their
      two's-complement reinterpretation. */
  function UDec(x: int): (r: CString)
    ensures 1 <= |r| && AllDigits(r)
    ensures 0 <= x < 0x1_0000_0000 ==> r == Dec(x)
    ensures -0x1_0000_0000 <= x < 0 ==> r == Dec(x + 0x1_0000_0000)
  {
    Dec(x % 0x1_0000_0000)
  }

  /** The number a string of decimal digits denotes. */
  function DigitsValue(ds: string): nat
    requires AllDigits(ds)
  {
    if ds == [] then 0
    else DigitsValue(ds[..|ds| - 1]) * 10 + (ds[|ds| - 1] as int - '0' as int)
  }

  /** Reading back what `%u` wrote gives the number. */
  lemma {:induction false} DecValue(n: nat)
    ensures DigitsValue(Dec(n)) == n
    decreases n
  {
    if n >= 10 {
      var d := Dec(n);
      assert d[..|d| - 1] == Dec(n / 10);
      DecValue(n / 10);
    }
  }

  /** A string of digits holds no character that is not a digit. */
  lemma DigitsExclude(s: string, c: char)
    requires AllDigits(s) && !IsDigit(c)
    ensures c !in s
  {
    forall k | 0 <= k < |s|
      ensures s[k] != c
    {
    }
  }

  /** `isspace` in the C locale. */
  predicate IsSpace(c: char) {
    c == ' ' || c == '\t' || c == '\n' || c == '\U{B}' || c == '\U{C}' || c == '\r'
  }

  /** The digit loop of `atoi`: each leading decimal digit of `s` is
      shifted into `acc`; the first character that is not a digit ends it. */
  function ReadDigits(s: string, acc: nat): nat {
    if s != [] && IsDigit(s[0]) then ReadDigits(s[1..], acc * 10 + (s[0] as int - '0' as int))
    else acc
  }

  /** `atoi`: optional white space, an optional sign, then the longest run
      of decimal digits; 0 when there are none. */
  function Atoi(s: string): (r: int)
    ensures s == [] || !(IsSpace(s[0]) || IsDigit(s[0]) || s[0] == '-' || s[0] == '+') ==> r == 0
    ensures s != [] && s[0] == '-' ==> r <= 0
    ensures s != [] && (IsDigit(s[0]) || s[0] == '+') ==> r >= 0
  {
    if s != [] && IsSpace(s[0]) then Atoi(s[1..])
    else if s != [] && s[0] == '-' then -(ReadDigits(s[1..], 0) as int)
    else if s != [] && s[0] == '+' then ReadDigits(s[1..], 0)
    else ReadDigits(s, 0)
  }

  /** The digit loop stops at the first character that is not a digit. */
  lemma {:induction false} ReadDigitsStop(ds: string, rest: string, acc: nat)
    requires AllDigits(ds)
    requires rest == [] || !IsDigit(rest[0])
    ensures ReadDigits(ds + rest, acc) == ReadDigits(ds, acc)
    decreases |ds|
  {
    if ds == [] {
      assert ds + rest == rest;
    } else {
      assert (ds + rest)[1..] == ds[1..] + rest;
      ReadDigitsStop(ds[1..], rest, acc * 10 + (ds[0] as int - '0' as int));
    }
  }

  /** One more digit at the end shifts the value read by one place. */
  lemma {:induction false} ReadDigitsSnoc(ds: string, c: char, acc: nat)
    requires AllDigits(ds) && IsDigit(c)
    ensures ReadDigits(ds + [c], acc) == ReadDigits(ds, acc) * 10 + (c as int - '0' as int)
    decreases |ds|
  {
    if ds == [] {
      assert ds + [c] == [c];
    } else {
      assert (ds + [c])[1..] == ds[1..] + [c];
      ReadDigitsSnoc(ds[1..], c, acc * 10 + (ds[0] as int - '0' as int));
    }
  }

  /** The digit loop computes the value of the digits. */
  lemma {:induction false} ReadDigitsValue(ds: string)
    requires AllDigits(ds)
    ensures ReadDigits(ds, 0) == DigitsValue(ds)
    decreases |ds|
  {
    if ds != [] {
      var init := ds[..|ds| - 1];
      assert ds == init + [ds[|ds| - 1]];
      ReadDigitsValue(init);
      ReadDigitsSnoc(init, ds[|ds| - 1], 0);
    }
  }

  /** `atoi` reads a run of digits in front of a non-digit. */
  lemma AtoiDigits(ds: string, rest: string)
    requires 1 <= |ds| && AllDigits(ds)
    requires rest == [] || !IsDigit(rest[0])
    ensures Atoi(ds + rest) == DigitsValue(ds)
  {
    var s := ds + rest;
    assert s[0] == ds[0] && IsDigit(ds[0]);
    assert Atoi(s) == ReadDigits(s, 0);
    ReadDigitsStop(ds, rest, 0);
    ReadDigitsValue(ds);
  }

  /** `atoi` undoes `%u`: the number rendered in front of a non-digit is
      read back. */
  lemma AtoiDec(n: nat, rest: string)
    requires rest == [] || !IsDigit(rest[0])
    ensures Atoi(Dec(n) + rest) == n
  {
    AtoiDigits(Dec(n), rest);
    DecValue(n);
  }

  /** How often `c` occurs in `s`. */
  function CountChar(s: string, c: char): nat {
    if s == [] then 0 else CountChar(s[..|s| - 1], c) + (if s[|s| - 1] == c then 1 else 0)
  }

  lemma {:induction false} CountCharAppend(a: string, b: string, c: char)
    ensures CountChar(a + b, c) == CountChar(a, c) + CountChar(b, c)
    decreases |b|
  {
    if b == [] {
      assert a + b == a;
    } else {
      assert (a + b)[..|a + b| - 1] == a + b[..|b| - 1];
      CountCharAppend(a, b[..|b| - 1], c);
    }
  }

  lemma {:induction false} CountCharAbsent(s: string, c: char)
    requires c !in s
    ensures CountChar(s, c) == 0
    decreases |s|
  {
    if s != [] {
      assert s[|s| - 1] in s;
      assert forall x :: x in s[..|s| - 1] ==> x in s;
      CountCharAbsent(s[..|s| - 1], c);
    }
  }
}
