/** Key material generation (`trapper_keeper/keegen.py`).

    Python strings are sequences of code points, modelled as `Text`. The secure
    random source is a stream of draws: the k-th `secrets.choice(pool)` returns
    `pool[draw(k) % |pool|]`. `unicodedata.category` and the word-list library's
    case conversions are parameters. */
module KeyGen {
  import opened Wrappers
  import opened Strings

  type Text = seq<int>
  type Draws = nat -> nat

  /** Default number of passphrase words, also the minimum word length. */
  const TokenSize: int := 4
  /** Maximum word length kept in the word list. */
  const KeySize: int := 190
  /** Exclusive upper bound of the scanned code points: BMP.max and SMP.max. */
  const BmpMax: int := 0xFFFF
  const SmpMax: int := 0x1FFFF

  /** `string.digits`, which is also `VALID_DELIMITERS` joined. */
  const Digits: Text := [48, 49, 50, 51, 52, 53, 54, 55, 56, 57]

  predicate IsDigit(c: int) {
    '0' as int <= c <= '9' as int
  }

  lemma DigitsAreDecimal(c: int)
    ensures c in Digits <==> IsDigit(c)
  {
  }
  /** `string.punctuation`: the ASCII code points 33-47, 58-64, 91-96 and 123-126. */
  const Punctuation: Text := [33, 34, 35, 36, 37, 38, 39, 40, 41, 42, 43, 44, 45, 46, 47, 58, 59, 60,
                              61, 62, 63, 64, 91, 92, 93, 94, 95, 96, 123, 124, 125, 126]

  function Choice<T>(pool: seq<T>, draw: nat): (r: T)
    requires |pool| > 0
    ensures r in pool
  {
    pool[draw % |pool|]
  }

  // ---------------------------------------------------------------------------
  // gen_utf8 and its letter table
  // ---------------------------------------------------------------------------

  /** `unicodedata.category(chr(cp)).startswith("L")` */
  predicate IsLetter(category: int -> string, cp: int) {
    StartsWith(category(cp), "L")
  }

  /** All letters among the code points `0 .. n-1`, in increasing order. */
  function LettersBelow(category: int -> string, n: nat): (r: seq<int>)
    ensures forall i :: 0 <= i < |r| ==> 0 <= r[i] < n && IsLetter(category, r[i])
    ensures forall c :: 0 <= c < n && IsLetter(category, c) ==> c in r
    ensures forall c :: c in r ==> 0 <= c < n && IsLetter(category, c)
    ensures forall i, j :: 0 <= i < j < |r| ==> r[i] < r[j]
  {
    if n == 0 then []
    else
      var below := LettersBelow(category, n - 1);
      if IsLetter(category, n - 1) then below + [n - 1] else below
  }

  /** The exclusive bound of the code points `_unicode_letters_generator` scans:
      `range(0, SMP.max)` or `range(0, BMP.max)`. */
  function ScanLimit(smp: bool): nat {
    if smp then SmpMax else BmpMax
  }

  /** `list(_unicode_letters_generator(smp))` */
  function UnicodeLetters(category: int -> string, smp: bool): (r: seq<int>)
    ensures forall c :: c in r <==> 0 <= c < ScanLimit(smp) && IsLetter(category, c)
  {
    LettersBelow(category, ScanLimit(smp))
  }

  /** Python's `s[0:n]`; a negative `n` counts from the end. */
  function SlicePrefix(s: Text, n: int): (r: Text)
    ensures StartsWith(s, r)
    ensures 0 <= n <= |s| ==> |r| == n
    ensures n >= |s| ==> r == s
  {
    if n >= 0 then s[..if n <= |s| then n else |s|]
    else s[..if |s| + n >= 0 then |s| + n else 0]
  }

  /** `n` successive `secrets.choice(pool)` results. */
  function Picks<T>(pool: seq<T>, n: nat, draw: Draws): (r: seq<T>)
    requires n > 0 ==> |pool| > 0
    ensures |r| == n
    ensures forall i :: 0 <= i < n ==> r[i] in pool
  {
    if n == 0 then [] else Picks(pool, n - 1, draw) + [Choice(pool, draw(n - 1))]
  }

  /** `f"{start}{separator}{random_str}"[0:length]` */
  function Prefixed(start: Text, separator: Text, random: Text, length: int): (r: Text)
    ensures StartsWith(start + separator + random, r)
    ensures StartsWith(start + separator, r) || StartsWith(r, start + separator)
    ensures 0 <= length <= |start + separator + random| ==> |r| == length
    ensures forall i :: |start + separator| <= i < |r| ==> r[i] == random[i - |start + separator|]
  {
    SlicePrefix(start + separator + random, length)
  }

  /** `gen_utf8(length, smp, start, separator)`. An empty `start` stands for both
      `None` and `""`, which `if start:` treats alike. */
  function GenUtf8(category: int -> string, draw: Draws, length: int, smp: bool, start: Text, separator: Text): (r: Result<Text>)
    ensures r.Err? <==> length > 0 && |UnicodeLetters(category, smp)| == 0
    ensures r.Ok? && length >= 0 ==> |r.value| == length
    ensures r.Ok? && length < 0 && |start| == 0 ==> r.value == []
    ensures r.Ok? && |start| == 0 ==>
      forall i :: 0 <= i < |r.value| ==> 0 <= r.value[i] < ScanLimit(smp) && IsLetter(category, r.value[i])
    ensures r.Ok? && |start| > 0 ==>
      StartsWith(start + separator, r.value) || StartsWith(r.value, start + separator)
    ensures r.Ok? && |start| > 0 ==>
      forall i :: |start + separator| <= i < |r.value| ==> IsLetter(category, r.value[i])
  {
    var letters := UnicodeLetters(category, smp);
    if length > 0 && |letters| == 0 then Err(IndexError("Cannot choose from an empty sequence"))
    else
      var random := Picks(letters, if length > 0 then length else 0, draw);
      if |start| > 0 then Ok(Prefixed(start, separator, random, length))
      else Ok(random)
  }

  // ---------------------------------------------------------------------------
  // gen_passphrase
  // ---------------------------------------------------------------------------

  /** The word-list library: the word file and the case conversions it and
      `str.upper` apply. */
  datatype WordSource = WordSource(wordfile: seq<Text>, lower: Text -> Text, upper: Text -> Text)

  /** The draws of one `gen_passphrase` call. */
  datatype PassDraws = PassDraws(digit: nat, shoutedWord: nat, punct: nat, words: Draws, delimiters: Draws)

  /** `generate_wordlist(wordfile, min_length=TOKEN_SIZE, max_length=KEY_SIZE)` */
  function Wordlist(wordfile: seq<Text>): (r: seq<Text>)
    ensures forall w :: w in r ==> TokenSize <= |w| <= KeySize && w in wordfile
    ensures forall w :: w in wordfile && TokenSize <= |w| <= KeySize ==> w in r
  {
    if |wordfile| == 0 then []
    else
      var rest := Wordlist(wordfile[1..]);
      if TokenSize <= |wordfile[0]| <= KeySize then [wordfile[0]] + rest else rest
  }

  /** Words joined by one delimiter code point between consecutive words. */
  function Render(words: seq<Text>, delims: seq<int>): Text
    requires |words| >= 1 && |delims| == |words| - 1
  {
    if |words| == 1 then words[0]
    else words[0] + [delims[0]] + Render(words[1..], delims[1..])
  }

  /** The `numwords` words drawn for the main part. */
  function MainWords(src: WordSource, wordlist: seq<Text>, n: nat, d: PassDraws): (r: seq<Text>)
    requires |wordlist| > 0
    ensures |r| == n
    ensures forall i :: 0 <= i < n ==> exists w :: w in wordlist && r[i] == src.lower(w)
  {
    if n == 0 then []
    else
      var w := Choice(wordlist, d.words(n - 1));
      var r := MainWords(src, wordlist, n - 1, d) + [src.lower(w)];
      assert w in wordlist && r[n - 1] == src.lower(w);
      r
  }

  /** The `numwords - 1` random delimiters between them. */
  function MainDelimiters(n: nat, d: PassDraws): (r: seq<int>)
    requires n >= 1
    ensures |r| == n - 1
    ensures forall i :: 0 <= i < |r| ==> r[i] in Digits
  {
    Picks(Digits, n - 1, d.delimiters)
  }

  /** `gen_passphrase(length)`: the main part, then one digit, one upper-cased
      word and one punctuation character. */
  function GenPassphrase(src: WordSource, length: int, d: PassDraws): (r: Result<Text>)
    ensures r.Err? <==> |Wordlist(src.wordfile)| == 0
    ensures r.Ok? ==> |r.value| >= 2 && r.value[|r.value| - 1] in Punctuation
    ensures r.Ok? ==>
      var wl := Wordlist(src.wordfile);
      var tail := [Choice(Digits, d.digit)] + src.upper(src.lower(Choice(wl, d.shoutedWord))) + [Choice(Punctuation, d.punct)];
      EndsWith(r.value, tail) && r.value[|r.value| - |tail|] in Digits
    ensures r.Ok? ==>
      var wl := Wordlist(src.wordfile);
      var tail := [Choice(Digits, d.digit)] + src.upper(src.lower(Choice(wl, d.shoutedWord))) + [Choice(Punctuation, d.punct)];
      r.value == MainPart(src, length, d) + tail
  {
    var wl := Wordlist(src.wordfile);
    if |wl| == 0 then Err(IndexError("Cannot choose from an empty sequence"))
    else
      var check := [Choice(Digits, d.digit)] + src.upper(src.lower(Choice(wl, d.shoutedWord))) + [Choice(Punctuation, d.punct)];
      var main := MainPart(src, length, d);
      AppendedTail(main, check);
      Ok(main + check)
  }

  /** A text with `tail` appended ends with it, at the position its length
      gives. */
  lemma AppendedTail(main: Text, tail: Text)
    requires |tail| > 0
    ensures EndsWith(main + tail, tail)
    ensures (main + tail)[|main + tail| - |tail|] == tail[0]
    ensures (main + tail)[|main + tail| - 1] == tail[|tail| - 1]
  {
    assert (main + tail)[|main + tail| - |tail|..] == tail;
  }

  /** The main part of a successful `GenPassphrase`. */
  function MainPart(src: WordSource, length: int, d: PassDraws): Text
    requires |Wordlist(src.wordfile)| > 0
  {
    var wl := Wordlist(src.wordfile);
    if length >= 1 then Render(MainWords(src, wl, length, d), MainDelimiters(length, d)) else []
  }

  lemma PassphraseStartsWithMain(src: WordSource, length: int, d: PassDraws)
    requires |Wordlist(src.wordfile)| > 0
    ensures GenPassphrase(src, length, d).Ok?
    ensures StartsWith(GenPassphrase(src, length, d).value, MainPart(src, length, d))
  {
    var main := MainPart(src, length, d);
    var r := GenPassphrase(src, length, d).value;
    assert r[..|main|] == main;
  }

  // ---------------------------------------------------------------------------
  // The main part splits back into its words at the digit delimiters
  // ---------------------------------------------------------------------------

  predicate DigitFree(t: Text) {
    forall i :: 0 <= i < |t| ==> !IsDigit(t[i])
  }

  /** Cuts a text at every digit, keeping empty pieces. */
  function SplitAtDigits(t: Text): (r: seq<Text>)
    ensures |r| >= 1
  {
    if |t| == 0 then [[]]
    else if IsDigit(t[0]) then [[]] + SplitAtDigits(t[1..])
    else
      var rest := SplitAtDigits(t[1..]);
      [[t[0]] + rest[0]] + rest[1..]
  }

  lemma {:induction false} SplitDigitFree(a: Text)
    requires DigitFree(a)
    ensures SplitAtDigits(a) == [a]
    decreases |a|
  {
    if |a| > 0 {
      SplitDigitFree(a[1..]);
      assert [a[0]] + a[1..] == a;
    }
  }

  lemma {:induction false} SplitAtDelimiter(a: Text, c: int, b: Text)
    requires DigitFree(a) && IsDigit(c)
    ensures SplitAtDigits(a + [c] + b) == [a] + SplitAtDigits(b)
    decreases |a|
  {
    if |a| == 0 {
      assert a + [c] + b == [c] + b;
      assert ([c] + b)[1..] == b;
    } else {
      var t := a + [c] + b;
      assert t[0] == a[0] && !IsDigit(t[0]);
      assert t[1..] == a[1..] + [c] + b;
      SplitAtDelimiter(a[1..], c, b);
      var rest := SplitAtDigits(t[1..]);
      assert rest == [a[1..]] + SplitAtDigits(b);
      assert SplitAtDigits(t) == [[a[0]] + a[1..]] + SplitAtDigits(b);
      assert [a[0]] + a[1..] == a;
    }
  }

  /** Splitting a rendered passphrase at its digits gives back the words,
      provided the words themselves contain no digit. */
  lemma {:induction false} RenderSplitsBack(words: seq<Text>, delims: seq<int>)
    requires |words| >= 1 && |delims| == |words| - 1
    requires forall i :: 0 <= i < |words| ==> DigitFree(words[i])
    requires forall i :: 0 <= i < |delims| ==> IsDigit(delims[i])
    ensures SplitAtDigits(Render(words, delims)) == words
    decreases |words|
  {
    if |words| == 1 {
      SplitDigitFree(words[0]);
    } else {
      SplitAtDelimiter(words[0], delims[0], Render(words[1..], delims[1..]));
      RenderSplitsBack(words[1..], delims[1..]);
      assert [words[0]] + words[1..] == words;
    }
  }

  /** The main part of a passphrase consists of exactly `length` words of the
      lower-cased word list, separated by single digits. */
  lemma MainPartIsDelimitedWords(src: WordSource, length: int, d: PassDraws)
    requires |Wordlist(src.wordfile)| > 0 && length >= 1
    requires forall w :: w in src.wordfile ==> DigitFree(src.lower(w))
    ensures |SplitAtDigits(MainPart(src, length, d))| == length
    ensures forall i :: 0 <= i < length ==>
      exists w :: w in Wordlist(src.wordfile) && SplitAtDigits(MainPart(src, length, d))[i] == src.lower(w)
  {
    var wl := Wordlist(src.wordfile);
    var ws := MainWords(src, wl, length, d);
    var ds := MainDelimiters(length, d);
    forall i | 0 <= i < |ws|
      ensures DigitFree(ws[i])
    {
      var w :| w in wl && ws[i] == src.lower(w);
    }
    forall i | 0 <= i < |ds|
      ensures IsDigit(ds[i])
    {
      DigitsAreDecimal(ds[i]);
    }
    RenderSplitsBack(ws, ds);
  }
}
