/** How canonical names are spelled, said of the words between hyphens. Together with
    being the same name up to letter case, the spelling determines the canonical form. */
module CanonicalNames {
  import opened HeaderFields
  import opened Text

  const SMALL_LETTERS := "abcdefghijklmnopqrstuvwxyz"
  const CAPITALS := "ABCDEFGHIJKLMNOPQRSTUVWXYZ"

  predicate IsSmall(c: char) {
    'a' <= c <= 'z'
  }

  predicate IsCapital(c: char) {
    'A' <= c <= 'Z'
  }

  lemma SmallLetters(i: nat)
    requires i < 26
    ensures SMALL_LETTERS[i] as int == 'a' as int + i
  {
    var small := SMALL_LETTERS;
    assert |small| == 26;
  }

  lemma CapitalLetters(i: nat)
    requires i < 26
    ensures CAPITALS[i] as int == 'A' as int + i
  {
    var capitals := CAPITALS;
    assert |capitals| == 26;
  }

  /** The two cases of a letter are the letters at one place of two alphabets. */
  lemma LetterCases(i: nat)
    requires i < 26
    ensures IsSmall(SMALL_LETTERS[i]) && IsCapital(CAPITALS[i])
    ensures Upper(SMALL_LETTERS[i]) == Upper(CAPITALS[i]) == CAPITALS[i]
    ensures Lower(CAPITALS[i]) == Lower(SMALL_LETTERS[i]) == SMALL_LETTERS[i]
  {
    SmallLetters(i);
    CapitalLetters(i);
  }

  /** Everything else has no case. */
  lemma OthersHaveNoCase(c: char)
    ensures IsLetter(c) <==> IsSmall(c) || IsCapital(c)
    ensures !IsLetter(c) ==> Upper(c) == Lower(c) == c
  {}

  /** Two names are the same exactly when at each place stands the same character, or
      one letter in either case. */
  lemma SameNameIff(a: string, b: string)
    ensures SameName(a, b)
       <==> && |a| == |b|
            && forall i | 0 <= i < |a| ::
                 a[i] == b[i] || (IsLetter(a[i]) && IsLetter(b[i]) && Upper(a[i]) == Upper(b[i]))
  {}

  /** The first letter of a word is a capital, every later one is small. */
  predicate IsCapitalised(word: string) {
    forall i | 0 <= i < |word| && IsLetter(word[i]) ::
      if HasLetter(word[..i]) then IsSmall(word[i]) else IsCapital(word[i])
  }

  predicate HasLetter(s: string) {
    exists i | 0 <= i < |s| :: IsLetter(s[i])
  }

  /** So are all words between hyphens. */
  predicate WordsCapitalised(name: string) {
    forall i | 0 <= i < |Split(name, '-')| :: IsCapitalised(Split(name, '-')[i])
  }

  /** The same, letter by letter. */
  predicate LettersCapitalised(name: string, from: nat) {
    forall i | from <= i < |name| && IsLetter(name[i]) ::
      if BeginsWord(name, i) then IsCapital(name[i]) else IsSmall(name[i])
  }

  lemma {:induction false} InFirstWord(name: string, i: nat)
    requires i <= |name| && '-' !in name[..i]
    ensures BeginsWord(name, i) <==> !HasLetter(name[..i])
  {
    if i > 0 {
      var before := name[..i - 1];
      assert name[..i] == before + [name[i - 1]];
      assert forall j | 0 <= j < i - 1 :: name[..i][j] == before[j];
      InFirstWord(name, i - 1);
      assert name[i - 1] == name[..i][i - 1];
      assert name[..i][i - 1] in name[..i];
    }
  }

  lemma {:induction false} InLaterWord(word: string, rest: string, i: nat)
    requires i <= |rest|
    ensures BeginsWord(word + "-" + rest, |word| + 1 + i) <==> BeginsWord(rest, i)
  {
    var name := word + "-" + rest;
    if i == 0 {
      assert name[|word|] == '-';
    } else {
      assert name[|word| + i] == rest[i - 1];
      InLaterWord(word, rest, i - 1);
    }
  }

  lemma FirstWordCapitalised(word: string, rest: string)
    requires '-' !in word
    ensures var name := word + rest;
            IsCapitalised(word)
            <==> forall i | 0 <= i < |word| && IsLetter(name[i]) ::
                   if BeginsWord(name, i) then IsCapital(name[i]) else IsSmall(name[i])
  {
    hide BeginsWord, IsLetter;
    var name := word + rest;
    forall i | 0 <= i < |word|
      ensures name[i] == word[i] && (BeginsWord(name, i) <==> !HasLetter(word[..i]))
    {
      assert name[..i] == word[..i];
      assert forall c | c in word[..i] :: c in word;
      InFirstWord(name, i);
    }
  }

  lemma LaterWordsCapitalised(word: string, rest: string)
    ensures LettersCapitalised(word + "-" + rest, |word| + 1) <==> LettersCapitalised(rest, 0)
  {
    hide BeginsWord, IsLetter, IsCapital, IsSmall;
    var name, n := word + "-" + rest, |word| + 1;
    forall i | 0 <= i < |rest|
      ensures name[n + i] == rest[i] && (BeginsWord(name, n + i) <==> BeginsWord(rest, i))
    {
      InLaterWord(word, rest, i);
    }
    if LettersCapitalised(name, n) {
      assert forall i | 0 <= i < |rest| :: name[n + i] == rest[i];
    }
    if LettersCapitalised(rest, 0) {
      forall i | n <= i < |name| && IsLetter(name[i])
        ensures if BeginsWord(name, i) then IsCapital(name[i]) else IsSmall(name[i])
      {
        assert name[n + (i - n)] == rest[i - n];
      }
    }
  }

  lemma FirstHyphen(name: string) returns (word: string, rest: string)
    requires '-' in name
    ensures name == word + "-" + rest && '-' !in word
    decreases |name|
  {
    if name[0] == '-' {
      word, rest := "", name[1..];
      assert name == "-" + rest;
    } else {
      assert name == [name[0]] + name[1..];
      word, rest := FirstHyphen(name[1..]);
      word := [name[0]] + word;
    }
  }

  lemma {:induction false} WordsAreLetters(name: string)
    ensures WordsCapitalised(name) <==> LettersCapitalised(name, 0)
    decreases |name|
  {
    hide BeginsWord, IsCapitalised, IsLetter, Split;
    if '-' !in name {
      SplitWhole(name, '-');
      FirstWordCapitalised(name, "");
      assert name + "" == name;
      assert WordsCapitalised(name) <==> IsCapitalised(name) by { OneWord(name); }
    } else {
      var word, rest := FirstHyphen(name);
      WordsAreLetters(rest);
      FirstWordCapitalised(word, "-" + rest);
      assert word + ("-" + rest) == name;
      LaterWordsCapitalised(word, rest);
      WordsOneMore(word, rest);
      LettersDivide(name, |word|);
    }
  }

  lemma LettersDivide(name: string, n: nat)
    requires n < |name| && name[n] == '-'
    ensures LettersCapitalised(name, 0)
       <==> && LettersCapitalised(name, n + 1)
            && forall i | 0 <= i < n && IsLetter(name[i]) ::
                 if BeginsWord(name, i) then IsCapital(name[i]) else IsSmall(name[i])
  {
    hide BeginsWord;
  }

  lemma OneWord(name: string)
    requires '-' !in name
    ensures WordsCapitalised(name) <==> IsCapitalised(name)
  {
    hide IsCapitalised;
    SplitWhole(name, '-');
    assert Split(name, '-')[0] == name;
  }

  lemma WordsOneMore(word: string, rest: string)
    requires '-' !in word
    ensures WordsCapitalised(word + "-" + rest) <==> IsCapitalised(word) && WordsCapitalised(rest)
  {
    hide IsCapitalised, Split;
    SplitWhole(word, '-');
    SplitConcat(word, rest, '-');
    var all, later := Split(word + "-" + rest, '-'), Split(rest, '-');
    assert all == [word] + later;
    assert all[0] == word;
    if WordsCapitalised(word + "-" + rest) {
      forall i | 0 <= i < |later| ensures IsCapitalised(later[i]) {
        assert all[i + 1] == later[i];
      }
    }
  }

  /** In the canonical form of a name the first letter of every word between hyphens is a
      capital and every later letter of it is small. */
  lemma CanonicalCapitalised(name: string)
    ensures WordsCapitalised(Canonical(name))
  {
    hide WordsCapitalised, BeginsWord;
    var canon := Canonical(name);
    CanonicalSameName(name);
    WordsAreLetters(canon);
    forall i | 0 <= i < |canon| && IsLetter(canon[i])
      ensures if BeginsWord(canon, i) then IsCapital(canon[i]) else IsSmall(canon[i])
    {
      SameNameSameWords(canon, name, i);
    }
  }

  /** The canonical form is the only name that is the same up to letter case and has its
      words capitalised. */
  lemma CanonicalIff(name: string, canon: string)
    ensures canon == Canonical(name) <==> SameName(canon, name) && WordsCapitalised(canon)
  {
    hide WordsCapitalised, BeginsWord, Canonical;
    CanonicalSameName(name);
    CanonicalCapitalised(name);
    if SameName(canon, name) && WordsCapitalised(canon) {
      WordsAreLetters(canon);
      WordsAreLetters(Canonical(name));
      assert SameName(canon, Canonical(name));
      forall i | 0 <= i < |canon| ensures canon[i] == Canonical(name)[i] {
        SameNameSameWords(canon, Canonical(name), i);
        assert Lower(canon[i]) == Lower(Canonical(name)[i]);
      }
    }
  }

  /** So is every name that a header table lists, and prints. */
  lemma NamesCapitalised(fields: seq<Field>, name: string)
    requires name in InsertAll(NO_HEADERS, fields).order
    ensures WordsCapitalised(name)
  {
    hide InsertAll, Canonical, WordsCapitalised;
    InsertAllConsistent(NO_HEADERS, fields);
    CanonicalCapitalised(name);
  }
}
