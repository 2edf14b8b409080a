/** Passphrase assembly: the seed text built from the three timings, and the
    passphrase built from the word list and the random draws.

    The seed text is hashed and the hash seeds a pseudo-random generator;
    neither is modelled. What the generator yields is given instead as a
    sequence of draws, taken in the order the generator is asked for them. */
module Passphrase {
  import opened Text
  import opened Shuffle

  /** Entries 0 to 32 of the word list are never drawn. */
  const Reserved: nat := 33

  /** The 24 candidate separator characters. */
  const Separators: string := "@%+\\/`!#$^?:,(){}[]~-_.\""

  /** The seed text: button press time, site load time and fetch delay,
      printed one after the other in that order. */
  function Seed(pressTime: int, loadTime: int, deltaFetch: int): (r: string)
    ensures |r| >= 3
    ensures 0 <= pressTime && 0 <= loadTime && 0 <= deltaFetch ==> AllDigits(r)
  {
    Decimal(pressTime) + Decimal(loadTime) + Decimal(deltaFetch)
  }

  /** In a join of three texts, two of them fixed, the third is determined. */
  lemma JoinCancel(x: string, y: string, z: string, x': string, y': string, z': string)
    requires x + y + z == x' + y' + z'
    requires (y == y' && z == z') || (x == x' && z == z') || (x == x' && y == y')
    ensures x == x' && y == y' && z == z'
  {
    var s := x + y + z;
    assert |x| == |x'| && |y| == |y'| && |z| == |z'|;
    assert x == s[..|x|] && x' == (x' + y' + z')[..|x'|];
    assert y == s[|x|..|x| + |y|] && y' == (x' + y' + z')[|x'|..|x'| + |y'|];
    assert z == s[|x| + |y|..] && z' == (x' + y' + z')[|x'| + |y'|..];
  }

  /** Changing one timing, the other two fixed, always changes the seed text. */
  lemma SeedSensitive(a: int, b: int, c: int, a': int, b': int, c': int)
    requires Seed(a, b, c) == Seed(a', b', c')
    requires (b == b' && c == c') || (a == a' && c == c') || (a == a' && b == b')
    ensures a == a' && b == b' && c == c'
  {
    JoinCancel(Decimal(a), Decimal(b), Decimal(c), Decimal(a'), Decimal(b'), Decimal(c'));
    DecimalInjective(a, a');
    DecimalInjective(b, b');
    DecimalInjective(c, c');
  }

  /** Changing two timings at once can leave the seed text as it was: the
      printed values are joined with no delimiter. */
  lemma SeedAmbiguous()
    ensures Seed(1, 23, 0) == Seed(12, 3, 0)
  {
  }

  /** The draws are in range, in the order they are taken: the digit, the
      shuffle's partners for positions 2 and 1, the separator, the three
      words (from n usable entries), the position to upper-case. */
  predicate WellRanged(d: seq<nat>, n: nat) {
    && |d| == 8
    && d[0] < 10 && d[1] < 3 && d[2] < 2 && d[3] < |Separators|
    && (forall i :: 4 <= i < 7 ==> d[i] < n) && d[7] < 3
  }

  /** The decimal text of a value drawn from [0, 10): one digit character. */
  function DigitText(k: nat): (s: string)
    requires k < 10
    ensures s == [DigitChar(k)]
  {
    NatText(k)
  }

  /** The pieces of a passphrase: three words, three fillers, one separator. */
  datatype Parts = Parts(words: seq<string>, fillers: seq<string>, sep: char)

  predicate Shaped(p: Parts) {
    |p.words| == 3 && |p.fillers| == 3
  }

  /** The template: each word followed by its filler, the separator between
      consecutive words and none after the last. */
  function Render(p: Parts): (r: string)
    requires Shaped(p)
    ensures |r| == |p.words[0]| + |p.words[1]| + |p.words[2]| + |p.fillers[0]| + |p.fillers[1]| + |p.fillers[2]| + 2
    ensures r[|p.words[0]| + |p.fillers[0]|] == p.sep
  {
    p.words[0] + p.fillers[0] + [p.sep] + p.words[1] + p.fillers[1] + [p.sep] + p.words[2] + p.fillers[2]
  }

  /** The filler slots hold the given digit text once and the empty text twice. */
  predicate FillersHold(f: seq<string>, digit: string) {
    |f| == 3 && exists q :: 0 <= q < 3 && f[q] == digit && forall i :: 0 <= i < 3 && i != q ==> f[i] == ""
  }

  predicate IsDigitText(s: string) {
    |s| == 1 && IsDigit(s[0])
  }

  /** The pieces as the passphrase generator may combine them, drawing words
      from `usable`: the separator from the fixed set, exactly one filler a
      single digit and the other two empty, and three drawn words of which
      exactly the one at position k is upper-cased. */
  ghost predicate WellFormed(p: Parts, usable: seq<string>) {
    && Shaped(p)
    && p.sep in Separators
    && (exists q :: 0 <= q < 3 && IsDigitText(p.fillers[q]) && forall i :: 0 <= i < 3 && i != q ==> p.fillers[i] == "")
    && exists k: nat, drawn: seq<string> ::
         k < 3 && |drawn| == 3 && (forall i :: 0 <= i < 3 ==> drawn[i] in usable) &&
         p.words == drawn[k := Upper(drawn[k])]
  }

  /** The passphrases the template admits over a list of usable words. */
  ghost predicate Conforms(pw: string, usable: seq<string>) {
    exists p: Parts :: WellFormed(p, usable) && pw == Render(p)
  }

  /** The pieces chosen by the draws d from the word list: the filler list
      ["", "", digit] shuffled, the separator, three words drawn with
      replacement past the reserved prefix, one of them upper-cased. */
  function Pick(words: seq<string>, d: seq<nat>): (p: Parts)
    requires |words| > Reserved && WellRanged(d, |words| - Reserved)
    ensures Shaped(p) && p.sep in Separators
  {
    var usable := words[Reserved..];
    var fillers := Shuffled(["", "", DigitText(d[0])], d[1..3]);
    var drawn := [usable[d[4]], usable[d[5]], usable[d[6]]];
    Parts(drawn[d[7] := Upper(drawn[d[7]])], fillers, Separators[d[3]])
  }

  /** The fillers are a permutation of ["", "", digit], the digit being the
      first draw, so exactly one of them is that digit and the others are empty. */
  lemma PickFillers(words: seq<string>, d: seq<nat>)
    requires |words| > Reserved && WellRanged(d, |words| - Reserved)
    ensures multiset(Pick(words, d).fillers) == multiset(["", "", DigitText(d[0])])
    ensures FillersHold(Pick(words, d).fillers, DigitText(d[0]))
  {
    ShuffledFillers(DigitText(d[0]), d[1..3]);
    ShuffledPermutes(["", "", DigitText(d[0])], d[1..3]);
  }

  /** The separator is one of the fixed set; the three words are the entries
      the word draws select at index 33 or later, and exactly the one at the
      last draw's position is upper-cased. */
  lemma PickWords(words: seq<string>, d: seq<nat>)
    requires |words| > Reserved && WellRanged(d, |words| - Reserved)
    ensures Pick(words, d).sep in Separators
    ensures forall i :: 0 <= i < 3 ==>
              Pick(words, d).words[i] == if i == d[7] then Upper(words[Reserved + d[4 + i]]) else words[Reserved + d[4 + i]]
  {
    var usable := words[Reserved..];
    var drawn := [usable[d[4]], usable[d[5]], usable[d[6]]];
    assert Pick(words, d).words == drawn[d[7] := Upper(drawn[d[7]])];
    forall i | 0 <= i < 3
      ensures drawn[i] == words[Reserved + d[4 + i]]
    {
      assert usable[d[4 + i]] == words[Reserved + d[4 + i]];
    }
  }

  /** The fillers hold one character in all, and each word keeps the length
      of the entry it was drawn as. */
  lemma PickLengths(words: seq<string>, d: seq<nat>)
    requires |words| > Reserved && WellRanged(d, |words| - Reserved)
    ensures |Pick(words, d).fillers[0]| + |Pick(words, d).fillers[1]| + |Pick(words, d).fillers[2]| == 1
    ensures forall i :: 0 <= i < 3 ==> |Pick(words, d).words[i]| == |words[Reserved + d[4 + i]]|
  {
    var f := Pick(words, d).fillers;
    ShuffledFillers(DigitText(d[0]), d[1..3]);
    var q :| 0 <= q < 3 && f[q] == DigitText(d[0]) && forall i :: 0 <= i < 3 && i != q ==> f[i] == "";
    PickWords(words, d);
  }

  /** The passphrase the draws d give over the word list. It is as long as
      its three words together, plus the two separators and the single digit. */
  function Assemble(words: seq<string>, d: seq<nat>): (r: string)
    requires |words| > Reserved && WellRanged(d, |words| - Reserved)
    ensures |r| == |words[Reserved + d[4]]| + |words[Reserved + d[5]]| + |words[Reserved + d[6]]| + 3
  {
    PickLengths(words, d);
    Render(Pick(words, d))
  }

  /** The pieces Pick chooses, given the words drawn and the shuffled fillers. */
  lemma PickUnfolds(words: seq<string>, d: seq<nat>, drawn: seq<string>, fillers: seq<string>)
    requires |words| > Reserved && WellRanged(d, |words| - Reserved)
    requires drawn == [words[Reserved..][d[4]], words[Reserved..][d[5]], words[Reserved..][d[6]]]
    requires fillers == Shuffled(["", "", DigitText(d[0])], d[1..3])
    ensures Pick(words, d) == Parts(drawn[d[7] := Upper(drawn[d[7]])], fillers, Separators[d[3]])
  {
  }

  /** The assembly step by step, as the generator runs it: the filler list is
      shuffled in place, the words are drawn past the reserved prefix and
      one of them is upper-cased in place, then the template is filled. */
  method BuildPasswd(words: seq<string>, d: seq<nat>) returns (pw: string)
    requires |words| > Reserved && WellRanged(d, |words| - Reserved)
    ensures pw == Assemble(words, d)
  {
    var fillers := new string[3] ["", "", DigitText(d[0])];
    assert fillers[..] == ["", "", DigitText(d[0])];
    ShuffleInPlace(fillers, d[1..3]);
    var shuffled := fillers[..];
    var wordList := words[Reserved..];
    var separator := Separators[d[3]];
    var threeWords := new string[3] [wordList[d[4]], wordList[d[5]], wordList[d[6]]];
    ghost var drawn := threeWords[..];
    var twIndex := d[7];
    threeWords[twIndex] := Upper(threeWords[twIndex]);
    var chosen := threeWords[..];
    assert chosen == drawn[twIndex := Upper(drawn[twIndex])];
    PickUnfolds(words, d, drawn, shuffled);
    pw := Render(Parts(chosen, shuffled, separator));
  }

  /** Shuffling ["", "", digit] leaves the digit in exactly one slot. */
  lemma ShuffledFillers(digit: string, js: seq<nat>)
    requires Partners(3, js)
    ensures FillersHold(Shuffled(["", "", digit], js), digit)
  {
    var s: seq<string> := ["", "", digit];
    ShuffledThree(s, js);
    var a, b := js[0], js[1];
    var f := Swap(Swap(s, 2, a), 1, b);
    if a == 2 {
      assert f == ["", "", digit] && f[2] == digit;
    } else if a == 1 && b == 0 {
      assert f == [digit, "", ""] && f[0] == digit;
    } else if a == 1 {
      assert f == ["", digit, ""] && f[1] == digit;
    } else if b == 0 {
      assert f == ["", digit, ""] && f[1] == digit;
    } else {
      assert f == [digit, "", ""] && f[0] == digit;
    }
  }

  /** Every passphrase assembled conforms to the template. */
  lemma AssembleConforms(words: seq<string>, d: seq<nat>)
    requires |words| > Reserved && WellRanged(d, |words| - Reserved)
    ensures Conforms(Assemble(words, d), words[Reserved..])
  {
  }

  /** The digit slot q is reached by swapping position 2 with q and then
      leaving position 1 where it is. */
  lemma FillersAt(digit: string, q: nat)
    requires q < 3
    ensures Partners(3, [q, 1])
    ensures Shuffled(["", "", digit], [q, 1]) == ["", "", digit][2 := ""][q := digit]
  {
  }

  /** Draws that put the digit text f[q] into filler slot q give the fillers f. */
  lemma FillersReached(words: seq<string>, d: seq<nat>, f: seq<string>, q: nat)
    requires |words| > Reserved && WellRanged(d, |words| - Reserved)
    requires |f| == 3 && q < 3 && d[1] == q && d[2] == 1 && DigitText(d[0]) == f[q]
    requires forall i :: 0 <= i < 3 && i != q ==> f[i] == ""
    ensures Pick(words, d).fillers == f
  {
  }

  /** Word draws selecting the entries drawn, and the upper-case draw k, give
      drawn with its entry k upper-cased. */
  lemma WordsReached(words: seq<string>, d: seq<nat>, drawn: seq<string>)
    requires |words| > Reserved && WellRanged(d, |words| - Reserved) && |drawn| == 3
    requires words[Reserved + d[4]] == drawn[0]
    requires words[Reserved + d[5]] == drawn[1]
    requires words[Reserved + d[6]] == drawn[2]
    ensures Pick(words, d).words == drawn[d[7] := Upper(drawn[d[7]])]
  {
  }

  /** Eight values, each within its draw's range, are well ranged. */
  lemma DrawsInRange(d: seq<nat>, n: nat)
    requires |d| == 8 && d[0] < 10 && d[1] < 3 && d[2] < 2 && d[3] < |Separators|
    requires d[4] < n && d[5] < n && d[6] < n && d[7] < 3
    ensures WellRanged(d, n)
  {
  }

  /** The draw that selects a usable word: its index past the reserved prefix. */
  lemma WordIndex(words: seq<string>, w: string) returns (i: nat)
    requires |words| > Reserved && w in words[Reserved..]
    ensures i < |words| - Reserved && words[Reserved + i] == w
  {
    var usable := words[Reserved..];
    i :| i < |usable| && usable[i] == w;
  }

  /** Draws that reproduce given pieces: the digit of slot q, the partners
      [q, 1], the separator's index, the indices of the drawn words, and k. */
  lemma DrawsFor(words: seq<string>, p: Parts, q: nat, k: nat, drawn: seq<string>) returns (d: seq<nat>)
    requires |words| > Reserved && Shaped(p) && p.sep in Separators
    requires q < 3 && IsDigitText(p.fillers[q]) && forall i :: 0 <= i < 3 && i != q ==> p.fillers[i] == ""
    requires k < 3 && |drawn| == 3 && p.words == drawn[k := Upper(drawn[k])]
    requires drawn[0] in words[Reserved..] && drawn[1] in words[Reserved..] && drawn[2] in words[Reserved..]
    ensures WellRanged(d, |words| - Reserved) && Pick(words, d) == p
  {
    var usable := words[Reserved..];
    var digit := DigitValue(p.fillers[q][0]);
    DigitCharValue(p.fillers[q][0]);
    assert DigitText(digit) == p.fillers[q];
    var sep: nat :| sep < |Separators| && Separators[sep] == p.sep;
    var w0 := WordIndex(words, drawn[0]);
    var w1 := WordIndex(words, drawn[1]);
    var w2 := WordIndex(words, drawn[2]);
    d := [digit, q, 1, sep, w0, w1, w2, k];
    assert d[0] == digit && d[1] == q && d[2] == 1 && d[3] == sep;
    assert d[4] == w0 && d[5] == w1 && d[6] == w2 && d[7] == k;
    DrawsInRange(d, |usable|);
    FillersReached(words, d, p.fillers, q);
    WordsReached(words, d, drawn);
  }

  /** Every passphrase the template admits is assembled by some draws. */
  lemma ConformingIsAssembled(words: seq<string>, pw: string)
    requires |words| > Reserved && Conforms(pw, words[Reserved..])
    ensures exists d :: WellRanged(d, |words| - Reserved) && Assemble(words, d) == pw
  {
    var usable := words[Reserved..];
    var p :| WellFormed(p, usable) && pw == Render(p);
    var q :| 0 <= q < 3 && IsDigitText(p.fillers[q]) && forall i :: 0 <= i < 3 && i != q ==> p.fillers[i] == "";
    var k: nat, drawn: seq<string> :| k < 3 && |drawn| == 3 && (forall i :: 0 <= i < 3 ==> drawn[i] in usable) &&
      p.words == drawn[k := Upper(drawn[k])];
    assert drawn[0] in usable && drawn[1] in usable && drawn[2] in usable;
    var d := DrawsFor(words, p, q, k, drawn);
    assert Assemble(words, d) == pw;
  }

  /** The entries in the reserved prefix have no influence on the passphrase. */
  lemma ReservedUnused(words: seq<string>, words': seq<string>, d: seq<nat>)
    requires |words| > Reserved && WellRanged(d, |words| - Reserved)
    requires |words'| == |words|
    requires forall i :: Reserved <= i < |words| ==> words'[i] == words[i]
    ensures Assemble(words', d) == Assemble(words, d)
  {
  }
}
