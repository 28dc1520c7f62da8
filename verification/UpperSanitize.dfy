/**
 The capitalisation line filter (src/upper_sanitize.cpp), with the character classes of the
 default "C" locale. A line is a byte string.
 */
module UpperSanitize {
  import opened Bytes

  predicate IsBlank(c: u8) {
    c == 0x20 || c == 0x09
  }

  predicate IsUpper(c: u8) {
    0x41 <= c <= 0x5a
  }

  predicate IsAlpha(c: u8) {
    IsUpper(c) || 0x61 <= c <= 0x7a
  }

  function ToLower(c: u8): u8 {
    if IsUpper(c) then c + 0x20 else c
  }

  /** "A" to "Z" and "a" to "z", in order. */
  const CAPITALS: seq<u8> := seq(26, (k: nat) requires k < 26 => 65 + k)
  const SMALL: seq<u8> := seq(26, (k: nat) requires k < 26 => 97 + k)

  /** Folding keeps a letter's place in the alphabet, and every other character. */
  lemma FoldsByPlace(c: u8)
    ensures IsBlank(c) <==> c in {9, 32}
    ensures IsUpper(c) <==> c in CAPITALS
    ensures IsAlpha(c) <==> c in CAPITALS || c in SMALL
    ensures forall k | 0 <= k < 26 :: c == CAPITALS[k] ==> ToLower(c) == SMALL[k]
    ensures c !in CAPITALS ==> ToLower(c) == c
  {
    if IsUpper(c) {
      assert c == CAPITALS[c - 65];
    } else if IsAlpha(c) {
      assert c == SMALL[c - 97];
    }
  }

  /** A blank at `j`, past the first character, with no letter between it and `i`. */
  ghost predicate OpensWord(line: seq<u8>, j: nat, i: nat)
    requires i <= |line|
  {
    1 <= j < i && IsBlank(line[j]) && forall k | j < k < i :: !IsAlpha(line[k])
  }

  ghost predicate AtWordBegin(line: seq<u8>, i: nat)
    requires i <= |line|
  {
    exists j :: OpensWord(line, j, i)
  }

  /** The positional specification: which characters keep their case. */
  ghost function Sanitized(line: seq<u8>, i: nat): u8
    requires i < |line|
  {
    if i == 0 || AtWordBegin(line, i) then line[i] else ToLower(line[i])
  }

  ghost predicate IsSanitized(line: seq<u8>, out: seq<u8>) {
    |out| == |line| && forall i | 0 <= i < |line| :: out[i] == Sanitized(line, i)
  }

  method SanitizeLine(line: seq<u8>) returns (lineOut: seq<u8>)
    ensures IsSanitized(line, lineOut)
  {
    var lineBegin, wordBegin := true, false;
    lineOut := [];
    for i := 0 to |line|
      invariant |lineOut| == i
      invariant lineBegin <==> i == 0
      invariant wordBegin <==> AtWordBegin(line, i)
      invariant forall k | 0 <= k < i :: lineOut[k] == Sanitized(line, k)
    {
      WordBeginStep(line, i);
      if lineBegin {
        lineOut := lineOut + [line[i]];
        lineBegin := false;
        continue;
      }
      if IsBlank(line[i]) {
        wordBegin := true;
        lineOut := lineOut + [line[i]];
        continue;
      }
      if wordBegin {
        lineOut := lineOut + [line[i]];
        if IsAlpha(line[i]) {
          wordBegin := false;
        }
        continue;
      }
      if IsUpper(line[i]) {
        lineOut := lineOut + [ToLower(line[i])];
      } else {
        lineOut := lineOut + [line[i]];
      }
    }
  }

  /** The flag's update rule follows from the positional definition. */
  lemma WordBeginStep(line: seq<u8>, i: nat)
    requires i < |line|
    ensures AtWordBegin(line, i + 1)
       <==> (i >= 1 && IsBlank(line[i])) || (AtWordBegin(line, i) && !IsAlpha(line[i]))
  {
    if i >= 1 && IsBlank(line[i]) {
      assert OpensWord(line, i, i + 1);
    }
    if AtWordBegin(line, i) && !IsAlpha(line[i]) {
      var j :| OpensWord(line, j, i);
      assert OpensWord(line, j, i + 1);
    }
    if AtWordBegin(line, i + 1) {
      var j :| OpensWord(line, j, i + 1);
      assert j == i || OpensWord(line, j, i);
    }
  }

  /** Only the case of letters changes, so a second pass finds the same words. */
  lemma SameWords(line: seq<u8>, out: seq<u8>, i: nat)
    requires IsSanitized(line, out) && i <= |line|
    ensures AtWordBegin(out, i) <==> AtWordBegin(line, i)
  {
    assert forall k | 0 <= k < |line| :: out[k] == line[k] || out[k] == ToLower(line[k]) by {
      assert forall k | 0 <= k < |line| :: out[k] == Sanitized(line, k);
    }
    if AtWordBegin(line, i) {
      var j :| OpensWord(line, j, i);
      assert OpensWord(out, j, i);
    }
    if AtWordBegin(out, i) {
      var j :| OpensWord(out, j, i);
      assert OpensWord(line, j, i);
    }
  }

  /** Filtering twice is filtering once, and filtering keeps every character up to case. */
  lemma SanitizeIdempotent(line: seq<u8>, once: seq<u8>, twice: seq<u8>)
    requires IsSanitized(line, once) && IsSanitized(once, twice)
    ensures twice == once
    ensures |once| == |line| && forall i | 0 <= i < |line| :: ToLower(once[i]) == ToLower(line[i])
  {
    forall i | 0 <= i < |line|
      ensures twice[i] == once[i] && ToLower(once[i]) == ToLower(line[i])
    {
      SameWords(line, once, i);
      assert once[i] == Sanitized(line, i) && twice[i] == Sanitized(once, i);
    }
  }

  /**
   Exactly which lines the filter leaves alone: those whose capitals all stand at the start of the
   line or are the first letter after a blank.
   */
  lemma SanitizeFixesExactly(line: seq<u8>, out: seq<u8>)
    requires IsSanitized(line, out)
    ensures out == line <==>
            forall i | 1 <= i < |line| :: IsUpper(line[i]) ==> AtWordBegin(line, i)
  {
  }
}
