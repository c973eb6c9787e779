/**
 * The frontend query normaliser (`normalizeQuery`): a chain of character-level
 * rewrites applied to the search box text before it is sent to the backend.
 * Every stage either deletes characters or maps each character to one other,
 * so the whole chain is a character-wise fold.
 */
module StringUtils {
  import opened Text

  /** The punctuation class `[。、．・!！?？]`. */
  predicate IsPunctuation(c: char)
  {
    c == '。' || c == '、' || c == '．' || c == '・' || c == '!' || c == '！' || c == '?' || c == '？'
  }

  /** The katakana prolonged sound mark `ー` (U+30FC). */
  const LongVowelMark: char := '\U{30FC}'

  predicate IsLongVowelMark(c: char)
  {
    c == LongVowelMark
  }

  /** The range `[ぁ-ん]`, U+3041 to U+3093. */
  predicate IsHiragana(c: char)
  {
    0x3041 <= c as int <= 0x3093
  }

  /** A hiragana character moves to the katakana character 0x60 above it; others stay. */
  function ToKatakana(c: char): (d: char)
    ensures IsHiragana(c) ==> d as int == c as int + 0x60
    ensures !IsHiragana(c) ==> d == c
    ensures !IsHiragana(d)
  {
    if IsHiragana(c) then (c as int + 0x60) as char else c
  }

  /** `replace(re, '')` for a character class: the characters that `drop` rejects, in order. */
  function Remove(s: string, drop: char -> bool): (r: string)
    ensures |r| <= |s|
    ensures forall i :: 0 <= i < |r| ==> !drop(r[i])
  {
    if s == [] then [] else (if drop(s[0]) then [] else [s[0]]) + Remove(s[1..], drop)
  }

  /** The hiragana-to-katakana `replace` with a callback, character by character. */
  function Katakana(s: string): (r: string)
    ensures |r| == |s|
    ensures forall i :: 0 <= i < |s| ==> r[i] == ToKatakana(s[i])
  {
    seq(|s|, i requires 0 <= i < |s| => ToKatakana(s[i]))
  }

  /** The `replace` chain followed by `toLowerCase()`, without the empty-input shortcut. */
  function Chain(s: string): string
  {
    Lower(Katakana(Remove(Remove(Remove(s, IsPunctuation), IsLongVowelMark), IsJsSpace)))
  }

  /** A character that some stage deletes. */
  predicate Deleted(c: char)
  {
    IsPunctuation(c) || IsLongVowelMark(c) || IsJsSpace(c)
  }

  /** A character every stage leaves as it is. */
  predicate Clean(c: char)
  {
    !Deleted(c) && !IsHiragana(c) && !IsAsciiUpper(c)
  }

  /** What the chain makes of one character: nothing, or one clean character. */
  function FoldChar(c: char): (r: string)
    ensures |r| <= 1
    ensures r == [] <==> Deleted(c)
    ensures forall i :: 0 <= i < |r| ==> Clean(r[i])
    ensures Clean(c) ==> r == [c]
  {
    if Deleted(c) then [] else [LowerChar(ToKatakana(c))]
  }

  /** The reference definition: each character rewritten on its own, results concatenated in input order. */
  function Fold(s: string): string
  {
    if s == [] then [] else FoldChar(s[0]) + Fold(s[1..])
  }

  /** `normalizeQuery`: the empty string is returned as is, every other string goes through the chain. */
  function NormalizeQuery(text: string): (r: string)
    ensures text == "" ==> r == ""
    ensures |r| <= |text|
    ensures forall i :: 0 <= i < |r| ==> Clean(r[i])
    ensures r == Fold(text)
  {
    FoldEqualsChain(text);
    FoldClean(text);
    if text == "" then "" else Chain(text)
  }

  lemma {:induction false} RemoveAppend(a: string, b: string, drop: char -> bool)
    ensures Remove(a + b, drop) == Remove(a, drop) + Remove(b, drop)
  {
    if a == [] {
      assert a + b == b;
    } else {
      assert (a + b)[0] == a[0];
      assert (a + b)[1..] == a[1..] + b;
      RemoveAppend(a[1..], b, drop);
    }
  }

  lemma KatakanaAppend(a: string, b: string)
    ensures Katakana(a + b) == Katakana(a) + Katakana(b)
  {
    var l, r := Katakana(a + b), Katakana(a) + Katakana(b);
    forall i | 0 <= i < |l| ensures l[i] == r[i] {
      if i < |a| {
        assert (a + b)[i] == a[i];
      } else {
        assert (a + b)[i] == b[i - |a|];
      }
    }
  }

  lemma LowerAppend(a: string, b: string)
    ensures Lower(a + b) == Lower(a) + Lower(b)
  {
    var l, r := Lower(a + b), Lower(a) + Lower(b);
    forall i | 0 <= i < |l| ensures l[i] == r[i] {
      if i < |a| {
        assert (a + b)[i] == a[i];
      } else {
        assert (a + b)[i] == b[i - |a|];
      }
    }
  }

  lemma ChainAppend(a: string, b: string)
    ensures Chain(a + b) == Chain(a) + Chain(b)
  {
    RemoveAppend(a, b, IsPunctuation);
    var a1, b1 := Remove(a, IsPunctuation), Remove(b, IsPunctuation);
    RemoveAppend(a1, b1, IsLongVowelMark);
    var a2, b2 := Remove(a1, IsLongVowelMark), Remove(b1, IsLongVowelMark);
    RemoveAppend(a2, b2, IsJsSpace);
    var a3, b3 := Remove(a2, IsJsSpace), Remove(b2, IsJsSpace);
    KatakanaAppend(a3, b3);
    LowerAppend(Katakana(a3), Katakana(b3));
  }

  lemma ChainChar(c: char)
    ensures Chain([c]) == FoldChar(c)
  {
    assert [c][1..] == [];
  }

  /** The chain of replacements is the character-wise fold. */
  lemma {:induction false} FoldEqualsChain(s: string)
    ensures Chain(s) == Fold(s)
  {
    if s != [] {
      assert s == [s[0]] + s[1..];
      ChainAppend([s[0]], s[1..]);
      ChainChar(s[0]);
      FoldEqualsChain(s[1..]);
    }
  }

  /** The fold deletes or rewrites, never adds, and what it produces is clean. */
  lemma {:induction false} FoldClean(s: string)
    ensures |Fold(s)| <= |s|
    ensures forall i :: 0 <= i < |Fold(s)| ==> Clean(Fold(s)[i])
  {
    if s != [] {
      FoldClean(s[1..]);
      var h, t := FoldChar(s[0]), Fold(s[1..]);
      assert Fold(s) == h + t;
      forall i | 0 <= i < |h + t| ensures Clean((h + t)[i]) {
        if i >= |h| {
          assert (h + t)[i] == t[i - |h|];
        }
      }
    }
  }

  /** A clean string is its own fold. */
  lemma {:induction false} FoldOfClean(s: string)
    requires forall i :: 0 <= i < |s| ==> Clean(s[i])
    ensures Fold(s) == s
  {
    if s != [] {
      FoldOfClean(s[1..]);
      assert s == [s[0]] + s[1..];
    }
  }

  /** Normalising twice is normalising once. */
  lemma NormalizeQueryIdempotent(x: string)
    ensures NormalizeQuery(NormalizeQuery(x)) == NormalizeQuery(x)
  {
    FoldOfClean(NormalizeQuery(x));
  }

  /** With nothing to delete, every character is kept at its place, converted to katakana and lowercased. */
  lemma {:induction false} NothingDeleted(s: string)
    requires forall i :: 0 <= i < |s| ==> !Deleted(s[i])
    ensures |NormalizeQuery(s)| == |s|
    ensures forall i :: 0 <= i < |s| ==> NormalizeQuery(s)[i] == LowerChar(ToKatakana(s[i]))
  {
    if s != [] {
      NothingDeleted(s[1..]);
      var h, t := FoldChar(s[0]), Fold(s[1..]);
      assert Fold(s) == h + t;
      forall i | 0 <= i < |s| ensures (h + t)[i] == LowerChar(ToKatakana(s[i])) {
        if i > 0 {
          assert (h + t)[i] == t[i - 1];
          assert s[i] == s[1..][i - 1];
        }
      }
    }
  }

  /** The output is the fold of the parts: what a prefix normalises to comes first. */
  lemma NormalizeQueryAppend(a: string, b: string)
    ensures NormalizeQuery(a + b) == NormalizeQuery(a) + NormalizeQuery(b)
  {
    ChainAppend(a, b);
    FoldEqualsChain(a);
    FoldEqualsChain(b);
    FoldEqualsChain(a + b);
  }
}
