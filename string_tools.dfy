/**
 * The string helpers of src/stringTools.c. Every parser of the server is built
 * on `strtok_r`: a token is a maximal non-empty run of characters that are not
 * in the delimiter string, so leading, trailing and repeated delimiters never
 * produce an empty token. `Tokens` states that meaning once; the methods
 * below are the source's cursor loops, proved against it.
 *
 * A C string argument is modelled as the characters before its terminator.
 */
module StringTools {
  import opened Common

  // ---------------------------------------------------------------------------
  // Specification of strtok_r tokenization
  // ---------------------------------------------------------------------------

  /** Length of the longest prefix of `s` holding no delimiter. */
  function RunLength(s: string, delim: string): (n: nat)
    ensures n <= |s|
    ensures forall i :: 0 <= i < n ==> s[i] !in delim
    ensures n < |s| ==> s[n] in delim
  {
    if s == [] || s[0] in delim then 0 else 1 + RunLength(s[1..], delim)
  }

  /** The tokens successive `strtok_r` calls return for `s`, left to right. */
  function Tokens(s: string, delim: string): seq<string>
    decreases |s|
  {
    if s == [] then []
    else if s[0] in delim then Tokens(s[1..], delim)
    else
      var n := RunLength(s, delim);
      [s[..n]] + Tokens(s[n..], delim)
  }

  /** A token as strtok_r can return it: non-empty and free of delimiters. */
  predicate IsToken(t: string, delim: string)
  {
    t != [] && forall i :: 0 <= i < |t| ==> t[i] !in delim
  }

  /** The run length is determined by where the first delimiter stands. */
  lemma RunLengthIs(s: string, delim: string, n: nat)
    requires n <= |s|
    requires forall i :: 0 <= i < n ==> s[i] !in delim
    requires n < |s| ==> s[n] in delim
    ensures RunLength(s, delim) == n
  {
    if n > 0 {
      RunLengthIs(s[1..], delim, n - 1);
    }
  }

  /** No token is empty and no token holds a delimiter. */
  lemma {:induction false} TokensAreTokens(s: string, delim: string)
    ensures forall k :: 0 <= k < |Tokens(s, delim)| ==> IsToken(Tokens(s, delim)[k], delim)
    decreases |s|
  {
    if s == [] {
    } else if s[0] in delim {
      TokensAreTokens(s[1..], delim);
    } else {
      var n := RunLength(s, delim);
      TokensAreTokens(s[n..], delim);
    }
  }

  /** A character the string does not hold appears in none of its tokens. */
  lemma {:induction false} TokensAvoid(s: string, delim: string, c: char)
    requires c !in s
    ensures forall k :: 0 <= k < |Tokens(s, delim)| ==> c !in Tokens(s, delim)[k]
    decreases |s|
  {
    if s == [] {
    } else if s[0] in delim {
      TokensAvoid(s[1..], delim, c);
    } else {
      var n := RunLength(s, delim);
      TokensAvoid(s[n..], delim, c);
    }
  }

  /** A delimiter splits the string: the tokens of `a + [d] + b` are those of `a` followed by those of `b`. */
  lemma {:induction false} TokensSplit(a: string, d: char, b: string, delim: string)
    requires d in delim
    ensures Tokens(a + [d] + b, delim) == Tokens(a, delim) + Tokens(b, delim)
    decreases |a|
  {
    var s := a + [d] + b;
    if a == [] {
      assert s[1..] == b;
    } else if a[0] in delim {
      assert s[1..] == a[1..] + [d] + b;
      TokensSplit(a[1..], d, b, delim);
    } else {
      var m := RunLength(a, delim);
      if m < |a| {
        var rest := a[m..];
        assert Tokens(s, delim) == [a[..m]] + Tokens(rest + [d] + b, delim) by {
          RunLengthIs(s, delim, m);
          assert s[..m] == a[..m];
          assert s[m..] == rest + [d] + b;
        }
        TokensSplit(rest, d, b, delim);
      } else {
        assert Tokens(s, delim) == [a] + Tokens([d] + b, delim) by {
          RunLengthIs(s, delim, |a|);
          assert s[..|a|] == a;
          assert s[|a|..] == [d] + b;
        }
        assert Tokens([d] + b, delim) == Tokens(b, delim) by {
          assert ([d] + b)[1..] == b;
        }
        assert Tokens(a, delim) == [a] by {
          assert a[..|a|] == a;
          assert a[|a|..] == [];
        }
      }
    }
  }

  /** A single token is tokenized to itself. */
  lemma TokensOfToken(t: string, delim: string)
    requires IsToken(t, delim)
    ensures Tokens(t, delim) == [t]
  {
    RunLengthIs(t, delim, |t|);
    assert t[..|t|] == t;
    assert t[|t|..] == [];
  }

  /** The tokens joined by one delimiter character. */
  function Join(ts: seq<string>, sep: char): string
  {
    if ts == [] then [] else if |ts| == 1 then ts[0] else ts[0] + [sep] + Join(ts[1..], sep)
  }

  /** Round trip: joining well-formed tokens with a delimiter and tokenizing gives them back. */
  lemma {:induction false} TokensOfJoin(ts: seq<string>, sep: char, delim: string)
    requires sep in delim
    requires forall k :: 0 <= k < |ts| ==> IsToken(ts[k], delim)
    ensures Tokens(Join(ts, sep), delim) == ts
  {
    if ts == [] {
    } else if |ts| == 1 {
      TokensOfToken(ts[0], delim);
    } else {
      TokensSplit(ts[0], sep, Join(ts[1..], sep), delim);
      TokensOfToken(ts[0], delim);
      TokensOfJoin(ts[1..], sep, delim);
    }
  }

  /** Delimiters at the end of the string produce no token. */
  lemma TokensTrailingDelimiter(s: string, d: char, delim: string)
    requires d in delim
    ensures Tokens(s + [d], delim) == Tokens(s, delim)
  {
    TokensSplit(s, d, [], delim);
    assert s + [d] + [] == s + [d];
  }

  /** A delimiter under the cursor contributes no token. */
  lemma TokensSkipDelimiter(s: string, i: nat, delim: string)
    requires i < |s| && s[i] in delim
    ensures Tokens(s[i..], delim) == Tokens(s[i + 1..], delim)
  {
    assert s[i..][1..] == s[i + 1..];
  }

  /** A run `s[i..j]` ended by a delimiter or by the end of `s` is the next token, and the cursor moves past its end. */
  lemma TokensAtRun(s: string, i: nat, j: nat, delim: string)
    requires i < j <= |s|
    requires forall k :: i <= k < j ==> s[k] !in delim
    requires j < |s| ==> s[j] in delim
    ensures Tokens(s[i..], delim) == [s[i..j]] + Tokens(s[if j < |s| then j + 1 else j..], delim)
  {
    RunLengthIs(s[i..], delim, j - i);
    assert s[i..][..j - i] == s[i..j];
    assert s[i..][j - i..] == s[j..];
    if j < |s| {
      TokensSkipDelimiter(s, j, delim);
    }
  }

  // ---------------------------------------------------------------------------
  // The cursor loops of stringTools.c
  // ---------------------------------------------------------------------------

  /**
   * Index `i` holds a delimiter that ends a token: the place where `strtok_r`
   * writes its '\0' when it returns that token.
   */
  predicate EndsToken(s: string, delim: string, i: int)
  {
    0 < i < |s| && s[i] in delim && s[i - 1] !in delim
  }

  /** strspn from `pos`: the index of the first character after `pos` that is not a delimiter. */
  method SkipDelimiters(buf: seq<char>, delim: string, pos: nat) returns (i: nat)
    requires pos <= |buf|
    ensures pos <= i <= |buf|
    ensures forall k :: pos <= k < i ==> buf[k] in delim
    ensures i < |buf| ==> buf[i] !in delim
    ensures Tokens(buf[pos..], delim) == Tokens(buf[i..], delim)
  {
    i := pos;
    while i < |buf| && buf[i] in delim
      invariant pos <= i <= |buf|
      invariant forall k :: pos <= k < i ==> buf[k] in delim
      invariant Tokens(buf[pos..], delim) == Tokens(buf[i..], delim)
    {
      TokensSkipDelimiter(buf, i, delim);
      i := i + 1;
    }
  }

  /** strcspn from `i`: the index of the first delimiter at or after `i`, or the end. */
  method FindDelimiter(buf: seq<char>, delim: string, i: nat) returns (j: nat)
    requires i <= |buf|
    ensures i <= j <= |buf|
    ensures forall k :: i <= k < j ==> buf[k] !in delim
    ensures j < |buf| ==> buf[j] in delim
  {
    j := i;
    while j < |buf| && buf[j] !in delim
      invariant i <= j <= |buf|
      invariant forall k :: i <= k < j ==> buf[k] !in delim
    {
      j := j + 1;
    }
  }

  /**
   * After delimiters from `pos` to `i` and a run without delimiters from `i`
   * to `j`, the only index past `pos` and up to `j` that ends a token is `j`,
   * and only when the run is not empty.
   */
  lemma EndsTokenAfterScan(buf: seq<char>, delim: string, pos: nat, i: nat, j: nat)
    requires pos <= i <= j <= |buf|
    requires forall k :: pos <= k < i ==> buf[k] in delim
    requires forall k :: i <= k < j ==> buf[k] !in delim
    ensures forall k :: pos < k <= j && k < |buf| ==> (EndsToken(buf, delim, k) <==> i < j && k == j && buf[k] in delim)
  {
    forall k | pos < k <= j && k < |buf|
      ensures EndsToken(buf, delim, k) <==> i < j && k == j && buf[k] in delim
    {
      if k <= i {
        assert k == i || buf[k - 1] in delim;
      }
    }
  }

  /**
   * One call of `strtok_r` on buffer `buf` with save pointer `pos`: skip
   * delimiters, return the run that follows, overwrite the delimiter that
   * ended it with '\0' in the returned buffer, and leave the cursor just past
   * that delimiter.
   */
  method StrTokR(buf: seq<char>, delim: string, pos: nat) returns (token: Option<string>, next: nat, written: seq<char>)
    requires pos <= |buf|
    ensures pos <= next <= |buf|
    ensures token.None? <==> Tokens(buf[pos..], delim) == []
    ensures token.None? ==> next == |buf|
    ensures token.Some? ==> pos < next && Tokens(buf[pos..], delim) == [token.value] + Tokens(buf[next..], delim)
    ensures token.Some? ==> next == |buf| || buf[next - 1] in delim
    ensures |written| == |buf| && written[next..] == buf[next..]
    ensures forall i :: 0 <= i < |buf| ==> written[i] == if pos < i < next && EndsToken(buf, delim, i) then '\0' else buf[i]
    ensures forall i :: pos < i < next - 1 ==> !EndsToken(buf, delim, i)
    ensures next < |buf| ==> EndsToken(buf, delim, next - 1)
  {
    var i := SkipDelimiters(buf, delim, pos);
    if i == |buf| {
      EndsTokenAfterScan(buf, delim, pos, i, i);
      return None, |buf|, buf;
    }
    var j := FindDelimiter(buf, delim, i);
    EndsTokenAfterScan(buf, delim, pos, i, j);
    next := if j < |buf| then j + 1 else j;
    assert Tokens(buf[pos..], delim) == [buf[i..j]] + Tokens(buf[next..], delim) by {
      TokensAtRun(buf, i, j, delim);
    }
    token := Some(buf[i..j]);
    if j < |buf| {
      written := buf[j := '\0'];
      assert written[next..] == buf[next..];
    } else {
      written := buf;
    }
  }

  /** getNumberOfTokens: counts the calls of strtok_r that return a token (stringTools.c:10-34). */
  method GetNumberOfTokens(s: string, delim: string) returns (count: nat)
    ensures count == |Tokens(s, delim)|
  {
    count := 0;
    assert s[0..] == s;
    var token, pos, buf := StrTokR(s, delim, 0);
    while token.Some?
      invariant pos <= |buf| == |s|
      invariant count + |Tokens(buf[pos..], delim)| + (if token.Some? then 1 else 0) == |Tokens(s, delim)|
      invariant token.None? ==> Tokens(buf[pos..], delim) == []
      decreases |s| - pos + (if token.Some? then 1 else 0)
    {
      count := count + 1;
      token, pos, buf := StrTokR(buf, delim, pos);
    }
  }

  /** The `StringArray` of stringTools.h: tokens, their lengths and their number. */
  datatype StringArray = StringArray(strings: seq<string>, stringLengths: seq<nat>, numStrings: nat)

  /**
   * The cursor's view of a token sequence: when the tokens from index `k` on
   * are what the next strtok_r call splits into `token` and the rest, the
   * token is the one at `k` and the rest starts at `k + 1`.
   */
  lemma NextOfSuffix(ts: seq<string>, k: nat, token: Option<string>, rest: seq<string>)
    requires k <= |ts|
    requires token.None? ==> ts[k..] == []
    requires token.Some? ==> ts[k..] == [token.value] + rest
    ensures token.None? ==> k == |ts|
    ensures token.Some? ==> k < |ts| && ts[k] == token.value && ts[k + 1..] == rest
  {
    if token.Some? {
      assert ts[k..][0] == ts[k];
      assert ts[k + 1..] == ts[k..][1..];
    }
  }

  /**
   * tokenizeString (stringTools.c:36-80): counts the tokens, exits the process
   * when there are none, then fills two arrays of that size.
   */
  method TokenizeString(s: string, delim: string) returns (r: Run<StringArray>)
    ensures r.Crash? == false
    ensures r.ExitFailure? <==> Tokens(s, delim) == []
    ensures r.Returns? ==> r.value.strings == Tokens(s, delim)
    ensures r.Returns? ==> r.value.numStrings == |r.value.strings| == |r.value.stringLengths|
    ensures r.Returns? ==> forall k :: 0 <= k < r.value.numStrings ==>
                             r.value.stringLengths[k] == |r.value.strings[k]| && IsToken(r.value.strings[k], delim)
  {
    var n := GetNumberOfTokens(s, delim);
    if n == 0 {
      return ExitFailure;
    }
    var strings := new string[n];
    var lengths := new nat[n];
    var index := 0;
    assert s[0..] == s;
    ghost var ts := Tokens(s, delim);
    var token, pos, buf := StrTokR(s, delim, 0);
    NextOfSuffix(ts, 0, token, Tokens(buf[pos..], delim));
    while token.Some?
      invariant pos <= |buf| == |s|
      invariant token.None? ==> index == |ts|
      invariant token.Some? ==> index < |ts| && ts[index] == token.value && ts[index + 1..] == Tokens(buf[pos..], delim)
      invariant forall k :: 0 <= k < index ==> strings[k] == ts[k]
      invariant forall k :: 0 <= k < index ==> lengths[k] == |ts[k]|
      decreases |s| - pos + (if token.Some? then 1 else 0)
    {
      strings[index] := token.value;
      lengths[index] := |token.value|;
      index := index + 1;
      assert forall k :: 0 <= k < index ==> strings[k] == ts[k];
      assert forall k :: 0 <= k < index ==> lengths[k] == |ts[k]|;
      token, pos, buf := StrTokR(buf, delim, pos);
      NextOfSuffix(ts, index, token, Tokens(buf[pos..], delim));
    }
    assert strings[..] == ts;
    TokensAreTokens(s, delim);
    r := Returns(StringArray(strings[..], lengths[..], n));
  }

  /** The `TokenAndStr` of stringTools.h: the duplicated input, as strtok_r left it, and a token (NULL when none). */
  datatype TokenAndStr = TokenAndStr(originalStr: seq<char>, token: Option<string>)

  /**
   * getFirstToken (stringTools.c:82-96): one strtok_r call on a copy of the
   * input. The copy comes back with '\0' written over the delimiter that
   * ended the first token, and only there.
   */
  method GetFirstToken(s: string, delim: string) returns (r: TokenAndStr)
    ensures r.token.None? <==> Tokens(s, delim) == []
    ensures r.token.Some? ==> r.token.value == Tokens(s, delim)[0]
    ensures |r.originalStr| == |s|
    ensures forall i :: 0 <= i < |s| ==>
              r.originalStr[i] == if EndsToken(s, delim, i) && (forall j :: 0 <= j < i ==> !EndsToken(s, delim, j)) then '\0' else s[i]
  {
    assert s[0..] == s;
    var token, next, buf := StrTokR(s, delim, 0);
    forall i | 0 <= i < |s|
      ensures buf[i] == if EndsToken(s, delim, i) && (forall j :: 0 <= j < i ==> !EndsToken(s, delim, j)) then '\0' else s[i]
    {
      if next <= i {
        assert EndsToken(s, delim, next - 1);
      }
    }
    r := TokenAndStr(buf, token);
  }

  /** The last element of a sequence, or None when it is empty. */
  function LastOf(xs: seq<string>): (r: Option<string>)
    ensures r.None? <==> xs == []
    ensures r.Some? ==> r.value == xs[|xs| - 1]
  {
    if xs == [] then None else Some(xs[|xs| - 1])
  }

  lemma LastOfCons(x: string, xs: seq<string>)
    ensures LastOf([x] + xs) == if xs == [] then Some(x) else LastOf(xs)
  {
  }

  /**
   * One strtok_r call from `from` to `next` on a buffer that still agrees
   * with `s` from `from` on: the scanned stretch now holds '\0' exactly where
   * a delimiter of `s` ends a token, the stretch before is untouched.
   */
  lemma NulsOfScan(s: string, delim: string, before: seq<char>, written: seq<char>, from: nat, next: nat)
    requires from <= next <= |s| == |before| == |written|
    requires forall i :: from <= i < |s| ==> before[i] == s[i]
    requires from == 0 || from == |s| || s[from - 1] in delim
    requires forall i :: 0 <= i < |before| ==> written[i] == if from < i < next && EndsToken(before, delim, i) then '\0' else before[i]
    ensures forall i :: 0 <= i < from ==> written[i] == before[i]
    ensures forall i :: from <= i < next ==> written[i] == if EndsToken(s, delim, i) then '\0' else s[i]
    ensures forall i :: next <= i < |s| ==> written[i] == s[i]
  {
    forall i | from <= i < next
      ensures written[i] == if EndsToken(s, delim, i) then '\0' else s[i]
    {
      if i > from {
        assert EndsToken(before, delim, i) == EndsToken(s, delim, i);
      }
    }
  }

  /**
   * getLastToken (stringTools.c:98-126): strtok_r until NULL, keeping the last
   * token seen. Every delimiter that ended a token has become '\0' in the
   * copy; every other character is as in the input.
   */
  method GetLastToken(s: string, delim: string) returns (r: TokenAndStr)
    ensures r.token.None? <==> Tokens(s, delim) == []
    ensures r.token.Some? ==> r.token.value == Tokens(s, delim)[|Tokens(s, delim)| - 1]
    ensures |r.originalStr| == |s|
    ensures forall i :: 0 <= i < |s| ==> r.originalStr[i] == if EndsToken(s, delim, i) then '\0' else s[i]
  {
    var last: Option<string> := None;
    assert s[0..] == s;
    var token, pos, buf := StrTokR(s, delim, 0);
    NulsOfScan(s, delim, s, buf, 0, pos);
    while token.Some?
      invariant pos <= |buf| == |s|
      invariant token.None? ==> pos == |s| && LastOf(Tokens(s, delim)) == last
      invariant token.Some? ==> LastOf(Tokens(s, delim)) == LastOf([token.value] + Tokens(buf[pos..], delim))
      invariant pos == 0 || pos == |s| || s[pos - 1] in delim
      invariant forall i :: pos <= i < |s| ==> buf[i] == s[i]
      invariant forall i :: 0 <= i < pos ==> buf[i] == if EndsToken(s, delim, i) then '\0' else s[i]
      decreases |s| - pos + (if token.Some? then 1 else 0)
    {
      LastOfCons(token.value, Tokens(buf[pos..], delim));
      last := token;
      ghost var before, from := buf, pos;
      token, pos, buf := StrTokR(buf, delim, pos);
      NulsOfScan(s, delim, before, buf, from, pos);
    }
    r := TokenAndStr(buf, last);
  }

  /**
   * addCharacterToStart (stringTools.c:128-150): `toAdd` followed by
   * `original`, built in a fresh buffer by strncpy then strncat.
   */
  method AddCharacterToStart(original: string, toAdd: string) returns (r: string)
    ensures r == toAdd + original
    ensures |r| == |toAdd| + |original|
  {
    var buffer := new char[|toAdd| + |original|];
    for i := 0 to |toAdd|
      invariant forall k :: 0 <= k < i ==> buffer[k] == toAdd[k]
    {
      buffer[i] := toAdd[i];
    }
    for i := 0 to |original|
      invariant forall k :: 0 <= k < |toAdd| ==> buffer[k] == toAdd[k]
      invariant forall k :: |toAdd| <= k < |toAdd| + i ==> buffer[k] == original[k - |toAdd|]
    {
      buffer[|toAdd| + i] := original[i];
    }
    assert buffer[..] == toAdd + original;
    r := buffer[..];
  }

  /**
   * checkIfCharInString (stringTools.c:152-163): scans the first `strlen`
   * characters of the buffer, so the terminator itself is never found.
   */
  method CheckIfCharInString(stringToCheck: seq<char>, toCheck: char) returns (found: bool)
    ensures found <==> toCheck in CString(stringToCheck)
    ensures toCheck == '\0' ==> !found
  {
    var checkLength := StrLen(stringToCheck);
    for i := 0 to checkLength
      invariant toCheck !in stringToCheck[..i]
    {
      if stringToCheck[i] == toCheck {
        assert toCheck == CString(stringToCheck)[i];
        return true;
      }
    }
    assert stringToCheck[..checkLength] == CString(stringToCheck);
    return false;
  }

  /** parseKeyValueBody (stringTools.c:165-169): the body tokenized on "&". */
  method ParseKeyValueBody(body: string) returns (r: Run<StringArray>)
    ensures r.ExitFailure? <==> Tokens(body, "&") == []
    ensures r.Returns? ==> r.value.strings == Tokens(body, "&") && r.value.numStrings == |Tokens(body, "&")|
  {
    r := TokenizeString(body, "&");
  }

  /** `strchr`: the index of the first `c` in `s`, or |s| when there is none. */
  function IndexOf(s: string, c: char): (i: nat)
    ensures i <= |s|
    ensures forall k :: 0 <= k < i ==> s[k] != c
    ensures i < |s| ==> s[i] == c
  {
    if s == [] || s[0] == c then 0 else 1 + IndexOf(s[1..], c)
  }

  /**
   * extractValueFromPair (stringTools.c:171-194): NULL when the pair has no
   * '=' or starts with one, otherwise everything after the first '='.
   */
  function ExtractValueFromPair(pair: string): (r: Option<string>)
    ensures r.None? <==> '=' !in pair || pair[0] == '='
    ensures r.Some? ==> |r.value| < |pair| - 1 &&
                        var key := pair[..|pair| - |r.value| - 1];
                        key != [] && '=' !in key && pair == key + "=" + r.value
  {
    var i := IndexOf(pair, '=');
    if i == |pair| || i == 0 then None
    else
      assert pair == pair[..i] + "=" + pair[i + 1..];
      Some(pair[i + 1..])
  }

  /** Round trip: a non-empty key without '=' joined to any value gives that value back. */
  lemma ExtractValueOfPair(key: string, value: string)
    requires key != [] && '=' !in key
    ensures ExtractValueFromPair(key + "=" + value) == Some(value)
  {
    var pair := key + "=" + value;
    assert pair[|key|] == '=';
    assert forall k :: 0 <= k < |key| ==> pair[k] == key[k];
    assert IndexOf(pair, '=') == |key|;
    assert pair[|key| + 1..] == value;
  }
}
