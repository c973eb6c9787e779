/**
 * The synonym dictionary of the search backend (`SynonymDict`): a constant map
 * from a normalised word to the list of words it stands for, looked up after
 * lowercasing and stripping the query word.
 */
module Synonyms {
  import opened Text

  /**
   * `normalize`: the empty (falsy) string gives the empty string, everything else
   * is lowercased and then stripped of surrounding whitespace.
   */
  function Normalize(t: string): string
  {
    if t == "" then "" else Strip(Lower(t))
  }

  /** The normalised form has no whitespace at either end and no upper-case letter, and normalising again changes nothing. */
  lemma NormalizeProperties(t: string)
    ensures var n := Normalize(t);
      && (n == [] || (!IsPySpace(n[0]) && !IsPySpace(n[|n| - 1])))
      && IsLower(n)
      && Normalize(n) == n
  {
    if t != "" {
      var n := Strip(Lower(t));
      LowerStripped(t);
      if n != "" {
        NormalForm(n);
      }
    }
  }

  /** Lowercasing and then stripping gives a lower-case string with no whitespace at either end. */
  lemma LowerStripped(t: string)
    ensures var n := Strip(Lower(t));
      && (n == [] || (!IsPySpace(n[0]) && !IsPySpace(n[|n| - 1])))
      && IsLower(n)
  {
    var l := Lower(t);
    StripProperties(l);
    assert IsLower(l);
    StripKeepsLower(l);
  }

  /** A non-empty lower-case string with no whitespace at either end is its own normal form. */
  lemma NormalForm(s: string)
    requires s != "" && IsLower(s) && !IsPySpace(s[0]) && !IsPySpace(s[|s| - 1])
    ensures Normalize(s) == s
  {
    LowerOfLower(s);
    StripNoop(s);
  }

  /** The constant dictionary, key by key as the service builds it. */
  const Dictionary: map<string, seq<string>> := map[
    "happy" := ["happy", "ハッピー", "happier", "unhappy"],
    "ハッピー" := ["happy", "ハッピー", "happier", "unhappy"],
    "birthday" := ["birthday", "バースデー", "バースデイ"],
    "バースデー" := ["birthday", "バースデー", "バースデイ"],
    "pdf" := ["pdf", "document", "資料"],
    "music" := ["music", "音楽", "score", "楽譜"],
    "楽譜" := ["music", "音楽", "score", "楽譜"],
    "hymn" := ["hymn", "賛美歌", "聖歌"],
    "賛美歌" := ["hymn", "賛美歌", "聖歌"]
  ]

  /** Every list of the dictionary names its own key. */
  lemma KeysInOwnLists()
    ensures forall k :: k in Dictionary ==> k in Dictionary[k]
  {
    forall k | k in Dictionary ensures k in Dictionary[k] {
      assert k in {"happy", "ハッピー", "birthday", "バースデー", "pdf", "music", "楽譜", "hymn", "賛美歌"};
    }
  }

  /**
   * `get_synonyms`: the list of the normalised word when it is a key, otherwise
   * the word itself, un-normalised. The result is never empty.
   */
  function GetSynonyms(word: string): (r: seq<string>)
    ensures r != []
    ensures Normalize(word) in Dictionary ==> Normalize(word) in r
    ensures Normalize(word) !in Dictionary ==> r == [word]
  {
    KeysInOwnLists();
    var key := Normalize(word);
    if key in Dictionary then Dictionary[key] else [word]
  }

  /** Two words with the same normalised form get the same list when that form is a key. */
  lemma HitDependsOnNormalForm(a: string, b: string)
    requires Normalize(a) == Normalize(b) && Normalize(a) in Dictionary
    ensures GetSynonyms(a) == GetSynonyms(b) == Dictionary[Normalize(a)]
  {
  }

  /** The paired spellings are keys with identical lists. */
  lemma PairedKeys()
    ensures GetSynonyms("happy") == GetSynonyms("ハッピー")
    ensures GetSynonyms("birthday") == GetSynonyms("バースデー")
    ensures GetSynonyms("music") == GetSynonyms("楽譜")
    ensures GetSynonyms("hymn") == GetSynonyms("賛美歌")
  {
    SameList("happy", "ハッピー");
    SameList("birthday", "バースデー");
    SameList("music", "楽譜");
    SameList("hymn", "賛美歌");
  }

  /** Two keys listed under the same list look up to the same synonyms. */
  lemma SameList(a: string, b: string)
    requires a in Dictionary && b in Dictionary && b in Dictionary[a]
    ensures GetSynonyms(a) == GetSynonyms(b)
  {
    NormalizeKey(a);
    NormalizeKey(b);
    ListsAgreeOnKeys(a, b);
  }

  /** Every key is already in normal form, so looking it up returns its own list. */
  lemma NormalizeKey(k: string)
    requires k in Dictionary
    ensures Normalize(k) == k
    ensures GetSynonyms(k) == Dictionary[k]
  {
    if k in {"happy", "birthday", "pdf", "music", "hymn"} {
      LatinKeyNormal(k);
    } else {
      JapaneseKeyNormal(k);
    }
  }

  lemma LatinKeyNormal(k: string)
    requires k in {"happy", "birthday", "pdf", "music", "hymn"}
    ensures Normalize(k) == k
  {
    if k == "happy" { NormalForm("happy"); }
    else if k == "birthday" { NormalForm("birthday"); }
    else if k == "pdf" { NormalForm("pdf"); }
    else if k == "music" { NormalForm("music"); }
    else { NormalForm("hymn"); }
  }

  lemma JapaneseKeyNormal(k: string)
    requires k in {"ハッピー", "バースデー", "楽譜", "賛美歌"}
    ensures Normalize(k) == k
  {
    if k == "ハッピー" { NormalForm("ハッピー"); }
    else if k == "バースデー" { NormalForm("バースデー"); }
    else if k == "楽譜" { NormalForm("楽譜"); }
    else { NormalForm("賛美歌"); }
  }

  /** A list member that is itself a key has the same list: the dictionary is closed on its keys. */
  lemma ListsAgreeOnKeys(k: string, m: string)
    requires k in Dictionary && m in Dictionary[k] && m in Dictionary
    ensures Dictionary[m] == Dictionary[k]
  {
    assert k in {"happy", "ハッピー", "birthday", "バースデー", "pdf", "music", "楽譜", "hymn", "賛美歌"};
  }

  /** Surrounding spaces and capitals do not matter on a hit. */
  lemma MixedCaseHit()
    ensures GetSynonyms("Happy ") == GetSynonyms("happy")
  {
    HappySpace();
    NormalizeKey("happy");
  }

  lemma HappySpace()
    ensures Normalize("Happy ") == "happy"
  {
    LowerHappy();
    StripHappy();
  }

  lemma LowerHappy()
    ensures Lower("Happy ") == "happy "
  {
    assert LowerChar('H') == 'h';
  }

  lemma StripHappy()
    ensures Strip("happy ") == "happy"
  {
    assert SkipSpaces("happy ", 0) == 0;
    assert TrimEnd("happy ", 0, 6) == TrimEnd("happy ", 0, 5) == 5;
    assert "happy "[0..5] == "happy";
  }

  /** A list member that is not a key falls back to the word alone. */
  lemma NonKeyMembers()
    ensures GetSynonyms("聖歌") == ["聖歌"]
    ensures GetSynonyms("バースデイ") == ["バースデイ"]
  {
    assert Lower("聖歌") == "聖歌";
    assert Lower("バースデイ") == "バースデイ";
    StripNoop("聖歌");
    StripNoop("バースデイ");
  }
}
