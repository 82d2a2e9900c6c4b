/**
 * Vocabulary shared by every module of the model: optional values for C's
 * NULL pointers, the outcome of a call that may end the process, the `strlen`
 * view of a character buffer, bytes, and the decimal formatting that the
 * server's `snprintf` calls perform ("%zu", "%04d").
 */
module Common {

  /** A C pointer that may be NULL. */
  datatype Option<+T> = None | Some(value: T)

  /**
   * The outcome of a C call that may end the whole process:
   * `ExitFailure` is `exit(EXIT_FAILURE)`, `Crash` is a NULL dereference
   * (for instance `strlen(NULL)` or a call through a NULL function pointer).
   */
  datatype Run<+T> = Returns(value: T) | ExitFailure | Crash

  /** One byte of a DBM datum. */
  type Byte = b: int | 0 <= b < 256

  // ---------------------------------------------------------------------------
  // C strings
  // ---------------------------------------------------------------------------

  /**
   * `strlen` of a character buffer: the number of characters before the first
   * '\0', or the whole buffer when it holds none.
   */
  function StrLen(buf: seq<char>): (n: nat)
    ensures n <= |buf|
    ensures forall i :: 0 <= i < n ==> buf[i] != '\0'
    ensures n < |buf| ==> buf[n] == '\0'
  {
    if buf == [] || buf[0] == '\0' then 0 else 1 + StrLen(buf[1..])
  }

  /** The C string a buffer holds: what `strdup`, `strcmp` and `strtok_r` see. */
  function CString(buf: seq<char>): (s: string)
    ensures '\0' !in s
    ensures s <= buf
    ensures '\0' !in buf ==> s == buf
  {
    buf[..StrLen(buf)]
  }

  /** The low eight bits of a character: a C `char` as the byte it is stored as. */
  function ByteOf(c: char): Byte
  {
    (c as int) % 256
  }

  /** The bytes of a character sequence. */
  function Bytes(s: string): (b: seq<Byte>)
    ensures |b| == |s|
    ensures forall i :: 0 <= i < |s| ==> b[i] == ByteOf(s[i])
  {
    seq(|s|, i requires 0 <= i < |s| => ByteOf(s[i]))
  }

  /** Every character fits in one byte (all characters the server formats itself are ASCII). */
  predicate IsNarrow(s: string)
  {
    forall i :: 0 <= i < |s| ==> (s[i] as int) < 256
  }

  /** On narrow strings `Bytes` loses nothing: equal bytes mean equal strings. */
  lemma BytesInjective(s: string, t: string)
    requires IsNarrow(s) && IsNarrow(t)
    requires Bytes(s) == Bytes(t)
    ensures s == t
  {
    assert |s| == |t|;
    forall i | 0 <= i < |s|
      ensures s[i] == t[i]
    {
      assert Bytes(s)[i] == Bytes(t)[i];
      assert (s[i] as int) == (t[i] as int);
    }
  }

  /** The first `n` characters of `s`, or all of `s` when it is shorter: what `strncpy` and `snprintf` keep. */
  function Truncate(s: seq<char>, n: nat): (t: seq<char>)
    ensures t <= s
    ensures |t| == if |s| <= n then |s| else n
  {
    if |s| <= n then s else s[..n]
  }

  /** Writing a terminator after a buffer's last character does not change the C string it holds. */
  lemma {:induction false} CStringOfAppendedTerminator(buf: seq<char>)
    ensures CString(buf + ['\0']) == CString(buf)
  {
    StrLenOfAppendedTerminator(buf);
  }

  lemma {:induction false} StrLenOfAppendedTerminator(buf: seq<char>)
    ensures StrLen(buf + ['\0']) == StrLen(buf)
  {
    if buf != [] && buf[0] != '\0' {
      assert (buf + ['\0'])[1..] == buf[1..] + ['\0'];
      StrLenOfAppendedTerminator(buf[1..]);
    }
  }

  /** A buffer that holds a NUL-free `s` followed by a terminator holds the C string `s`. */
  lemma CStringOfTerminated(buf: seq<char>, s: string)
    requires '\0' !in s && |s| < |buf|
    requires buf[..|s|] == s && buf[|s|] == '\0'
    ensures CString(buf) == s
  {
  }

  /**
   * BUFFER_SIZE, the size of the server's request, path and header buffers.
   * Its definition is not part of this model: every property holds for any
   * positive size.
   */
  type BufferSize = n: nat | 0 < n witness 1

  const BUFFER_SIZE: BufferSize

  /** The files the process can open, by path, with their bytes. */
  type FileSystem = map<string, seq<char>>

  // ---------------------------------------------------------------------------
  // Decimal numerals
  // ---------------------------------------------------------------------------

  predicate IsDigit(c: char)
  {
    '0' <= c <= '9'
  }

  predicate AllDigits(s: string)
  {
    forall i :: 0 <= i < |s| ==> IsDigit(s[i])
  }

  function DigitChar(d: nat): (c: char)
    requires d < 10
    ensures IsDigit(c)
  {
    ('0' as int + d) as char
  }

  function DigitValue(c: char): (d: nat)
    requires IsDigit(c)
    ensures d < 10
  {
    c as int - '0' as int
  }

  /** The decimal numeral of `n`, without leading zeros: `printf("%zu", n)`. */
  function Decimal(n: nat): (s: string)
    ensures 1 <= |s|
    ensures AllDigits(s) && IsNarrow(s)
    ensures |s| > 1 ==> s[0] != '0'
  {
    if n < 10 then [DigitChar(n)] else Decimal(n / 10) + [DigitChar(n % 10)]
  }

  /** The value of a numeral, most significant digit first; leading zeros add nothing. */
  function ParseDecimal(s: string): nat
    requires AllDigits(s)
  {
    if s == [] then 0 else 10 * ParseDecimal(s[..|s| - 1]) + DigitValue(s[|s| - 1])
  }

  /** Parsing undoes formatting. */
  lemma {:induction false} ParseDecimalOfDecimal(n: nat)
    ensures ParseDecimal(Decimal(n)) == n
  {
    if n >= 10 {
      var s := Decimal(n);
      assert s[..|s| - 1] == Decimal(n / 10);
      ParseDecimalOfDecimal(n / 10);
    }
  }

  /** Distinct numbers have distinct numerals. */
  lemma DecimalInjective(m: nat, n: nat)
    requires Decimal(m) == Decimal(n)
    ensures m == n
  {
    ParseDecimalOfDecimal(m);
    ParseDecimalOfDecimal(n);
  }

  function Zeros(k: nat): (s: string)
    ensures |s| == k && AllDigits(s) && IsNarrow(s)
    ensures forall i :: 0 <= i < k ==> s[i] == '0'
  {
    seq(k, _ => '0')
  }

  /** Leading zeros do not change the value of a numeral. */
  lemma {:induction false} ParseDecimalLeadingZeros(k: nat, s: string)
    requires AllDigits(s)
    ensures ParseDecimal(Zeros(k) + s) == ParseDecimal(s)
    decreases |s|, k
  {
    if s == [] {
      assert Zeros(k) + s == Zeros(k);
      if k > 0 {
        assert Zeros(k)[..k - 1] == Zeros(k - 1);
        ParseDecimalLeadingZeros(k - 1, []);
        assert Zeros(k - 1) + [] == Zeros(k - 1);
      }
    } else {
      var t := Zeros(k) + s;
      assert t[..|t| - 1] == Zeros(k) + s[..|s| - 1];
      ParseDecimalLeadingZeros(k, s[..|s| - 1]);
    }
  }

  /** `s` left-padded with '0' to at least `width` characters. */
  function ZeroPad(s: string, width: nat): (r: string)
    ensures |r| == if |s| < width then width else |s|
  {
    if |s| < width then Zeros(width - |s|) + s else s
  }

  /**
   * `printf("%04d", n)`: at least four characters, zero-padded after the sign,
   * so that -1 gives "-001" and 12345 gives "12345".
   */
  function Padded4(n: int): (s: string)
    ensures IsNarrow(s)
    ensures n >= 0 ==> AllDigits(s) && |s| >= 4 && ParseDecimal(s) == n
    ensures n < 0 ==> |s| >= 4 && s[0] == '-'
  {
    if n >= 0 then
      ParseDecimalOfDecimal(n);
      ParseDecimalLeadingZeros(if |Decimal(n)| < 4 then 4 - |Decimal(n)| else 0, Decimal(n));
      assert ZeroPad(Decimal(n), 4) == Zeros(if |Decimal(n)| < 4 then 4 - |Decimal(n)| else 0) + Decimal(n);
      ZeroPad(Decimal(n), 4)
    else
      "-" + ZeroPad(Decimal(-n), 3)
  }

  /** Distinct non-negative numbers are formatted differently by "%04d". */
  lemma Padded4Injective(m: nat, n: nat)
    requires Padded4(m) == Padded4(n)
    ensures m == n
  {
  }
}
