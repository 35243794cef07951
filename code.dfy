/**
 * Short-code shape and generation (src/lib/code.ts).
 *
 * `Math.random` is replaced by an oracle: `pick(i)` is the charset index drawn
 * for the i-th character, already floored into [0, 62).
 */
module Code {
  import opened Wrappers

  /** `CODE_CHARSET`, written as its three runs (the same 62-character string). */
  const CodeCharset: string := UpperRun + LowerRun + DigitRun

  const UpperRun: string := "ABCDEFGHIJKLMNOPQRSTUVWXYZ"
  const LowerRun: string := "abcdefghijklmnopqrstuvwxyz"
  const DigitRun: string := "0123456789"

  const MinCodeLength: nat := 6
  const MaxCodeLength: nat := 8

  /** An index into the charset, as `Math.floor(Math.random() * 62)` yields. */
  type CharIndex = i: nat | i < 62

  /** The random source: the index drawn for each character position. */
  type Oracle = nat -> CharIndex

  /** The regex character class `[A-Za-z0-9]`. */
  predicate IsCodeChar(c: char) {
    ('A' <= c <= 'Z') || ('a' <= c <= 'z') || ('0' <= c <= '9')
  }

  /** `^[A-Za-z0-9]{6,8}$`: the whole string, no multiline flag. */
  predicate IsValidCode(code: string) {
    && MinCodeLength <= |code| <= MaxCodeLength
    && forall i :: 0 <= i < |code| ==> IsCodeChar(code[i])
  }

  /** The charset laid out by position: 26 capitals, 26 small letters, 10 digits. */
  function CharsetAt(i: CharIndex): char {
    if i < 26 then ('A' as int + i) as char
    else if i < 52 then ('a' as int + (i - 26)) as char
    else ('0' as int + (i - 52)) as char
  }

  /** Position `i` of the charset holds `CharsetAt(i)`. */
  lemma CharsetLayout(i: CharIndex)
    ensures |CodeCharset| == 62
    ensures CodeCharset[i] == CharsetAt(i)
  {
    if i < 26 {
      assert CodeCharset[i] == UpperRun[i];
    } else if i < 52 {
      assert CodeCharset[i] == LowerRun[i - 26];
    } else {
      assert CodeCharset[i] == DigitRun[i - 52];
    }
  }

  lemma CharsetDistinct(i: CharIndex, j: CharIndex)
    requires i != j
    ensures CodeCharset[i] != CodeCharset[j]
  {
    CharsetLayout(i);
    CharsetLayout(j);
  }

  /** Each run holds only characters of its own range. */
  lemma UpperRunChars()
    ensures forall i :: 0 <= i < |UpperRun| ==> 'A' <= UpperRun[i] <= 'Z'
  {
  }

  lemma LowerRunChars()
    ensures forall i :: 0 <= i < |LowerRun| ==> 'a' <= LowerRun[i] <= 'z'
  {
  }

  lemma DigitRunChars()
    ensures forall i :: 0 <= i < |DigitRun| ==> '0' <= DigitRun[i] <= '9'
  {
  }

  lemma InRuns(c: char)
    requires c in CodeCharset
    ensures c in UpperRun || c in LowerRun || c in DigitRun
  {
  }

  lemma CharsetHoldsOnlyCodeChars(c: char)
    requires c in CodeCharset
    ensures IsCodeChar(c)
  {
    InRuns(c);
    UpperRunChars();
    LowerRunChars();
    DigitRunChars();
  }

  lemma CharsetHoldsEveryCodeChar(c: char)
    requires IsCodeChar(c)
    ensures c in CodeCharset
  {
    var i: CharIndex :=
      if 'A' <= c <= 'Z' then c as int - 'A' as int
      else if 'a' <= c <= 'z' then c as int - 'a' as int + 26
      else c as int - '0' as int + 52;
    CharsetLayout(i);
  }

  /** The charset has 62 distinct characters and holds exactly the ASCII letters and digits. */
  lemma CharsetIsAlphanumeric()
    ensures |CodeCharset| == 62
    ensures forall i, j :: 0 <= i < j < 62 ==> CodeCharset[i] != CodeCharset[j]
    ensures forall c :: c in CodeCharset <==> IsCodeChar(c)
  {
    forall i, j | 0 <= i < j < 62 ensures CodeCharset[i] != CodeCharset[j] {
      CharsetDistinct(i, j);
    }
    forall c ensures c in CodeCharset <==> IsCodeChar(c) {
      if c in CodeCharset {
        CharsetHoldsOnlyCodeChars(c);
      }
      if IsCodeChar(c) {
        CharsetHoldsEveryCodeChar(c);
      }
    }
  }

  /** The code spelled by the first `n` draws of `pick`. */
  function Spelled(pick: Oracle, n: nat): (code: string)
    ensures |code| == n
    ensures forall i :: 0 <= i < n ==> code[i] == CodeCharset[pick(i)]
  {
    seq(n, i requires 0 <= i < n => CodeCharset[pick(i)])
  }

  /** The number of characters `generateCode(length)` appends: the default is the minimum length,
      and a negative length runs the loop zero times. */
  function RequestedLength(length: Option<int>): nat {
    match length
    case None => MinCodeLength
    case Some(n) => if n < 0 then 0 else n
  }

  /** `generateCode(length = MIN_CODE_LENGTH)`: one charset character per loop iteration. */
  method GenerateCode(length: Option<int>, pick: Oracle) returns (code: string)
    ensures |code| == RequestedLength(length)
    ensures forall i :: 0 <= i < |code| ==> code[i] == CodeCharset[pick(i)]
    ensures length == None ==> |code| == MinCodeLength
    ensures code == Spelled(pick, RequestedLength(length))
  {
    var n := RequestedLength(length);
    code := "";
    var i := 0;
    while i < n
      invariant 0 <= i <= n
      invariant |code| == i
      invariant forall k :: 0 <= k < i ==> code[k] == CodeCharset[pick(k)]
    {
      code := code + [CodeCharset[pick(i)]];
      i := i + 1;
    }
    assert code == Spelled(pick, n);
  }

  /** Every generated character is in the charset. */
  lemma {:induction false} SpelledFromCharset(pick: Oracle, n: nat)
    ensures forall i :: 0 <= i < n ==> Spelled(pick, n)[i] in CodeCharset
    ensures forall i :: 0 <= i < n ==> IsCodeChar(Spelled(pick, n)[i])
  {
    CharsetIsAlphanumeric();
    var code := Spelled(pick, n);
    forall i | 0 <= i < n
      ensures code[i] in CodeCharset && IsCodeChar(code[i])
    {
      assert code[i] == CodeCharset[pick(i)];
    }
  }

  /** A code generated at any allowed length passes the validator. */
  lemma GeneratedIsValid(pick: Oracle, n: nat)
    requires MinCodeLength <= n <= MaxCodeLength
    ensures IsValidCode(Spelled(pick, n))
  {
    SpelledFromCharset(pick, n);
  }

  /** The validator is exactly the length bound and the character class. */
  lemma ValidCodeShape(s: string)
    ensures IsValidCode(s) <==> 6 <= |s| <= 8 && forall c :: c in s ==> IsCodeChar(c)
  {
  }

  /** Lengths 5 and 9, a slash, a space and any non-ASCII character are all rejected. */
  lemma ShapeRejection(s: string, c: char)
    requires |s| == 5 || |s| == 9 || (c in s && (c == '/' || c == ' ' || c as int >= 128))
    ensures !IsValidCode(s)
  {
  }
}
