/**
 * The attribute scanner of lexer/lexer.go (lexTagAttrs), in its two
 * phases: a quote-aware split of the text after the tag name into words,
 * then a walk over the words that pairs names with values.
 */
module Attrs {
  import opened Wrappers
  import opened Utils
  import opened Positions
  import opened Tokens
  import opened Comments

  /** The `quote` variable: no quote open, or the quote character that will close it. */
  datatype Quote = Unquoted | Quoted(mark: char)

  /** Phase 1's result: the words, and the index of the `/` or `>` that ended the scan, if any. */
  datatype Words = Words(words: seq<string>, stop: Option<nat>)

  /**
   * Phase 1 from index i, with the current word starting at wordStart. At
   * an unquoted `/` or `>` the pending word is pushed and the scan stops
   * there. When the input runs out first the pending word is not pushed.
   */
  function Split(input: string, i: nat, wordStart: nat, quote: Quote, words: seq<string>): (r: Words)
    requires wordStart <= i <= |input|
    ensures r.stop.Some? ==> i <= r.stop.value < |input| && (input[r.stop.value] == '/' || input[r.stop.value] == '>')
    decreases |input| - i
  {
    if i == |input| then Words(words, None)
    else
      var c := input[i];
      if quote.Quoted? then
        Split(input, i + 1, wordStart, if c == quote.mark then Unquoted else quote, words)
      else if c == '/' || c == '>' then
        Words(if i > wordStart then words + [input[wordStart..i]] else words, Some(i))
      else if IsWhiteSpace(c) then
        Split(input, i + 1, i + 1, quote, if wordStart != i then words + [input[wordStart..i]] else words)
      else
        Split(input, i + 1, wordStart, if c == '\'' || c == '"' then Quoted(c) else quote, words)
  }

  /** Phase 1 as lexTagAttrs starts it, at the cursor. */
  function SplitWords(input: string, start: nat): (r: Words)
    requires start <= |input|
    ensures r.stop.Some? ==> start <= r.stop.value < |input| && (input[r.stop.value] == '/' || input[r.stop.value] == '>')
  {
    Split(input, start, start, Unquoted, [])
  }

  // ---------------------------------------------------------------------
  // An independent description of phase 1: which characters are quoted,
  // which whitespace separates words, where the tag ends.

  function NextQuote(q: Quote, c: char): Quote
  {
    match q
    case Quoted(m) => if c == m then Unquoted else q
    case Unquoted => if c == '\'' || c == '"' then Quoted(c) else Unquoted
  }

  /** The quote state after reading input[from..i] from an unquoted start. */
  function QuoteIn(input: string, from: nat, i: nat): Quote
    requires from <= i <= |input|
    decreases i - from
  {
    if i == from then Unquoted else NextQuote(QuoteIn(input, from, i - 1), input[i - 1])
  }

  /** input[from..i] without the whitespace characters that are read outside a quote. */
  function StripIn(input: string, from: nat, i: nat): string
    requires from <= i <= |input|
    decreases i - from
  {
    if i == from then []
    else
      var c := input[i - 1];
      StripIn(input, from, i - 1) + (if QuoteIn(input, from, i - 1).Unquoted? && IsWhiteSpace(c) then [] else [c])
  }

  /** The words joined with nothing between them. */
  function Concat(words: seq<string>): string
    decreases |words|
  {
    if words == [] then [] else Concat(words[..|words| - 1]) + words[|words| - 1]
  }

  /** A `/` or `>` at index j that is outside every quote opened since `from`. */
  predicate BareTagEndAt(input: string, from: nat, j: nat)
  {
    from <= j < |input| && QuoteIn(input, from, j).Unquoted? && (input[j] == '/' || input[j] == '>')
  }

  /** A word: non-empty, with no whitespace outside its quotes. */
  predicate IsWord(w: string)
  {
    |w| > 0 && StripIn(w, 0, |w|) == w
  }

  /** Unquoted whitespace at j: a character that separates two words. */
  predicate SeparatorAt(input: string, from: nat, j: nat)
  {
    from <= j < |input| && QuoteIn(input, from, j).Unquoted? && IsWhiteSpace(input[j])
  }

  /** Where the run of characters ending at hi begins: just after the last separator before hi, or at `from`. */
  function RunStart(input: string, from: nat, hi: nat): (r: nat)
    requires from <= hi <= |input|
    ensures from <= r <= hi
    ensures forall j :: r <= j < hi ==> !SeparatorAt(input, from, j)
    ensures r > from ==> SeparatorAt(input, from, r - 1)
    decreases hi - from
  {
    if hi == from then from
    else if SeparatorAt(input, from, hi - 1) then hi
    else RunStart(input, from, hi - 1)
  }

  /**
   * The words of input[from..hi], cut independently of the scanning loop:
   * the non-empty runs between separators, in input order, the last one
   * ending at hi.
   */
  function Pieces(input: string, from: nat, hi: nat): seq<string>
    requires from <= hi <= |input|
    decreases hi - from
  {
    var a := RunStart(input, from, hi);
    (if a == from then [] else Pieces(input, from, a - 1)) + (if a < hi then [input[a..hi]] else [])
  }

  /** The words finished before hi: the pieces up to the last separator, without the run still open at hi. */
  function Completed(input: string, from: nat, hi: nat): seq<string>
    requires from <= hi <= |input|
  {
    var a := RunStart(input, from, hi);
    if a == from then [] else Pieces(input, from, a - 1)
  }

  /**
   * The shape of phase 1's result from `from`: every word is non-empty and
   * has no unquoted whitespace; the scan stops exactly at the first
   * unquoted `/` or `>`, and the words then hold, in order, every character
   * before it except the unquoted whitespace; with no such delimiter the
   * words hold a prefix of that text.
   */
  ghost predicate SplitShape(input: string, from: nat, r: Words)
    requires from <= |input|
  {
    && (forall k :: 0 <= k < |r.words| ==> IsWord(r.words[k]))
    && (r.stop.Some? ==>
          && BareTagEndAt(input, from, r.stop.value)
          && (forall j :: from <= j < r.stop.value ==> !BareTagEndAt(input, from, j))
          && Concat(r.words) == StripIn(input, from, r.stop.value))
    && (r.stop.None? ==>
          && (forall j :: from <= j < |input| ==> !BareTagEndAt(input, from, j))
          && Concat(r.words) <= StripIn(input, from, |input|))
  }

  /**
   * Where phase 1 cuts: at a stop the words are exactly the pieces before
   * it; when the input runs out they are the pieces finished before the
   * end, so only the run still open is dropped.
   */
  ghost predicate SplitCuts(input: string, from: nat, r: Words)
    requires from <= |input|
  {
    && (r.stop.Some? ==> from <= r.stop.value <= |input| && r.words == Pieces(input, from, r.stop.value))
    && (r.stop.None? ==> r.words == Completed(input, from, |input|))
  }

  /** What phase 1 from `from` means: its shape and its cuts. */
  ghost predicate SplitMeaning(input: string, from: nat, r: Words)
    requires from <= |input|
  {
    SplitShape(input, from, r) && SplitCuts(input, from, r)
  }

  ghost predicate SplitInvariant(input: string, from: nat, i: nat, wordStart: nat, quote: Quote, words: seq<string>)
  {
    && from <= wordStart <= i <= |input|
    && quote == QuoteIn(input, from, i)
    && quote == QuoteIn(input, wordStart, i)
    && (forall j :: from <= j < i ==> !BareTagEndAt(input, from, j))
    && Concat(words) + input[wordStart..i] == StripIn(input, from, i)
    && StripIn(input, wordStart, i) == input[wordStart..i]
    && (forall k :: 0 <= k < |words| ==> IsWord(words[k]))
  }

  lemma ExtendByOne(s: string, i: nat, j: nat)
    requires i <= j < |s|
    ensures s[i..j + 1][..j - i] == s[i..j] && s[i..j + 1][j - i] == s[j]
  {
  }

  /** Reading input[start..k] is reading the first k - start characters of input[start..i]. */
  lemma {:induction false} ReadShifted(input: string, start: nat, k: nat, i: nat)
    requires start <= k <= i <= |input|
    ensures QuoteIn(input, start, k) == QuoteIn(input[start..i], 0, k - start)
    ensures StripIn(input, start, k) == StripIn(input[start..i], 0, k - start)
    decreases k - start
  {
    if k > start {
      ReadShifted(input, start, k - 1, i);
      assert input[start..i][k - 1 - start] == input[k - 1];
    }
  }

  /** The text of a pending word with no unquoted whitespace is a word. */
  lemma PendingIsWord(input: string, start: nat, i: nat)
    requires start < i <= |input| && StripIn(input, start, i) == input[start..i]
    ensures IsWord(input[start..i])
  {
    ReadShifted(input, start, i, i);
  }

  lemma ConcatSnoc(words: seq<string>, w: string)
    ensures Concat(words + [w]) == Concat(words) + w
  {
    assert (words + [w])[..|words|] == words;
  }

  /** One character read inside a quote. */
  lemma StepQuoted(input: string, from: nat, i: nat, wordStart: nat, quote: Quote, words: seq<string>)
    requires SplitInvariant(input, from, i, wordStart, quote, words)
    requires i < |input| && quote.Quoted?
    ensures SplitInvariant(input, from, i + 1, wordStart, NextQuote(quote, input[i]), words)
  {
    assert input[wordStart..i + 1] == input[wordStart..i] + [input[i]];
    assert !BareTagEndAt(input, from, i);
  }

  /** One unquoted character that is neither whitespace nor a tag end. */
  lemma StepPlain(input: string, from: nat, i: nat, wordStart: nat, words: seq<string>)
    requires SplitInvariant(input, from, i, wordStart, Unquoted, words)
    requires i < |input| && input[i] != '/' && input[i] != '>' && !IsWhiteSpace(input[i])
    ensures SplitInvariant(input, from, i + 1, wordStart, NextQuote(Unquoted, input[i]), words)
  {
    assert input[wordStart..i + 1] == input[wordStart..i] + [input[i]];
  }

  /** Unquoted whitespace after a pending word: the word is pushed and a new one starts after it. */
  lemma StepSpace(input: string, from: nat, i: nat, wordStart: nat, words: seq<string>)
    requires SplitInvariant(input, from, i, wordStart, Unquoted, words)
    requires i < |input| && IsWhiteSpace(input[i])
    ensures SplitInvariant(input, from, i + 1, i + 1, Unquoted,
                           if wordStart != i then words + [input[wordStart..i]] else words)
  {
    assert input[i + 1..i + 1] == [];
    assert !BareTagEndAt(input, from, i);
    if wordStart != i {
      PushWord(input, from, i, wordStart, words);
    }
  }

  lemma PushWord(input: string, from: nat, i: nat, wordStart: nat, words: seq<string>)
    requires SplitInvariant(input, from, i, wordStart, Unquoted, words)
    requires wordStart < i < |input| && IsWhiteSpace(input[i])
    ensures Concat(words + [input[wordStart..i]]) == StripIn(input, from, i + 1)
    ensures forall k :: 0 <= k < |words| + 1 ==> IsWord((words + [input[wordStart..i]])[k])
  {
    ConcatSnoc(words, input[wordStart..i]);
    PendingIsWord(input, wordStart, i);
  }

  /** An unquoted `/` or `>`: the scan stops there with the pending word pushed. */
  lemma StepStop(input: string, from: nat, i: nat, wordStart: nat, words: seq<string>)
    requires SplitInvariant(input, from, i, wordStart, Unquoted, words)
    requires i < |input| && (input[i] == '/' || input[i] == '>')
    ensures SplitShape(input, from, Words(if i > wordStart then words + [input[wordStart..i]] else words, Some(i)))
  {
    if i > wordStart {
      ConcatSnoc(words, input[wordStart..i]);
      PendingIsWord(input, wordStart, i);
    }
  }

  /** The input runs out: the pending word is dropped and the words hold a prefix of the stripped text. */
  lemma StepEnd(input: string, from: nat, wordStart: nat, quote: Quote, words: seq<string>)
    requires SplitInvariant(input, from, |input|, wordStart, quote, words)
    ensures SplitShape(input, from, Words(words, None))
  {
  }

  /** Each step of Split keeps SplitInvariant; at the end the result has its meaning. */
  lemma {:induction false} SplitSound(input: string, from: nat, i: nat, wordStart: nat, quote: Quote, words: seq<string>)
    requires SplitInvariant(input, from, i, wordStart, quote, words)
    ensures SplitShape(input, from, Split(input, i, wordStart, quote, words))
    decreases |input| - i
  {
    if i == |input| {
      StepEnd(input, from, wordStart, quote, words);
    } else {
      var c := input[i];
      if quote.Quoted? {
        var q := NextQuote(quote, c);
        assert Split(input, i, wordStart, quote, words) == Split(input, i + 1, wordStart, q, words);
        StepQuoted(input, from, i, wordStart, quote, words);
        SplitSound(input, from, i + 1, wordStart, q, words);
      } else if c == '/' || c == '>' {
        StepStop(input, from, i, wordStart, words);
      } else if IsWhiteSpace(c) {
        var words' := if wordStart != i then words + [input[wordStart..i]] else words;
        assert Split(input, i, wordStart, quote, words) == Split(input, i + 1, i + 1, Unquoted, words');
        StepSpace(input, from, i, wordStart, words);
        SplitSound(input, from, i + 1, i + 1, Unquoted, words');
      } else {
        var q := NextQuote(Unquoted, c);
        assert Split(input, i, wordStart, quote, words) == Split(input, i + 1, wordStart, q, words);
        StepPlain(input, from, i, wordStart, words);
        SplitSound(input, from, i + 1, wordStart, q, words);
      }
    }
  }

  /** The invariant of the scan on where words are cut: the loop's wordStart and words follow the pieces. */
  ghost predicate CutInvariant(input: string, from: nat, i: nat, wordStart: nat, quote: Quote, words: seq<string>)
  {
    && from <= i <= |input|
    && quote == QuoteIn(input, from, i)
    && wordStart == RunStart(input, from, i)
    && words == Completed(input, from, i)
  }

  /** A character that is not a separator extends the open run. */
  lemma CutInsideRun(input: string, from: nat, i: nat, wordStart: nat, quote: Quote, words: seq<string>)
    requires CutInvariant(input, from, i, wordStart, quote, words)
    requires i < |input| && !SeparatorAt(input, from, i)
    ensures CutInvariant(input, from, i + 1, wordStart, NextQuote(quote, input[i]), words)
  {
  }

  /** A separator closes the open run, which becomes a word when it is not empty. */
  lemma CutAtSeparator(input: string, from: nat, i: nat, wordStart: nat, words: seq<string>)
    requires CutInvariant(input, from, i, wordStart, Unquoted, words)
    requires i < |input| && IsWhiteSpace(input[i])
    ensures CutInvariant(input, from, i + 1, i + 1, Unquoted,
                         if wordStart != i then words + [input[wordStart..i]] else words)
  {
    assert SeparatorAt(input, from, i);
    assert Completed(input, from, i + 1) == Pieces(input, from, i);
  }

  /** At a stop the open run is pushed and the words are the pieces before it. */
  lemma CutAtStop(input: string, from: nat, i: nat, wordStart: nat, words: seq<string>)
    requires wordStart <= i && CutInvariant(input, from, i, wordStart, Unquoted, words)
    requires i < |input| && (input[i] == '/' || input[i] == '>')
    ensures SplitCuts(input, from, Split(input, i, wordStart, Unquoted, words))
  {
    var r := Words(if i > wordStart then words + [input[wordStart..i]] else words, Some(i));
    assert Split(input, i, wordStart, Unquoted, words) == r;
    assert r.words == Pieces(input, from, i) by {
      assert Pieces(input, from, i) == Completed(input, from, i) + (if wordStart < i then [input[wordStart..i]] else []);
      assert words + [] == words;
    }
  }

  lemma {:induction false} SplitCutsSound(input: string, from: nat, i: nat, wordStart: nat, quote: Quote, words: seq<string>)
    requires wordStart <= i && CutInvariant(input, from, i, wordStart, quote, words)
    ensures SplitCuts(input, from, Split(input, i, wordStart, quote, words))
    decreases |input| - i, 1
  {
    if i == |input| {
      assert Split(input, i, wordStart, quote, words) == Words(words, None);
    } else if quote.Quoted? || !(input[i] == '/' || input[i] == '>' || IsWhiteSpace(input[i])) {
      SplitCutsRun(input, from, i, wordStart, quote, words);
    } else if input[i] == '/' || input[i] == '>' {
      assert quote == Unquoted;
      CutAtStop(input, from, i, wordStart, words);
    } else {
      assert quote == Unquoted;
      SplitCutsSpace(input, from, i, wordStart, words);
    }
  }

  /** SplitCutsSound for a separator, which closes the open run. */
  lemma {:induction false} SplitCutsSpace(input: string, from: nat, i: nat, wordStart: nat, words: seq<string>)
    requires wordStart <= i < |input| && CutInvariant(input, from, i, wordStart, Unquoted, words)
    requires IsWhiteSpace(input[i])
    ensures SplitCuts(input, from, Split(input, i, wordStart, Unquoted, words))
    decreases |input| - i, 0
  {
    var words' := if wordStart != i then words + [input[wordStart..i]] else words;
    assert Split(input, i, wordStart, Unquoted, words) == Split(input, i + 1, i + 1, Unquoted, words');
    CutAtSeparator(input, from, i, wordStart, words);
    SplitCutsSound(input, from, i + 1, i + 1, Unquoted, words');
  }

  /** SplitCutsSound for a character that only extends the open run. */
  lemma {:induction false} SplitCutsRun(input: string, from: nat, i: nat, wordStart: nat, quote: Quote, words: seq<string>)
    requires wordStart <= i < |input| && CutInvariant(input, from, i, wordStart, quote, words)
    requires quote.Quoted? || !(input[i] == '/' || input[i] == '>' || IsWhiteSpace(input[i]))
    ensures SplitCuts(input, from, Split(input, i, wordStart, quote, words))
    decreases |input| - i, 0
  {
    var q := NextQuote(quote, input[i]);
    assert Split(input, i, wordStart, quote, words) == Split(input, i + 1, wordStart, q, words);
    CutInsideRun(input, from, i, wordStart, quote, words);
    SplitCutsSound(input, from, i + 1, wordStart, q, words);
  }

  /** Phase 1 at the cursor has the meaning SplitMeaning describes. */
  lemma SplitWordsSpec(input: string, start: nat)
    requires start <= |input|
    ensures SplitMeaning(input, start, SplitWords(input, start))
  {
    assert input[start..start] == [];
    SplitSound(input, start, start, start, Unquoted, []);
    SplitCutsSound(input, start, start, start, Unquoted, []);
  }

  /** SplitMeaning fixes the result: two results that both have its meaning are the same. */
  lemma SplitMeaningDetermines(input: string, from: nat, r1: Words, r2: Words)
    requires from <= |input| && SplitMeaning(input, from, r1) && SplitMeaning(input, from, r2)
    ensures r1 == r2
  {
    assert r1.stop.Some? ==> BareTagEndAt(input, from, r1.stop.value);
    assert r2.stop.Some? ==> BareTagEndAt(input, from, r2.stop.value);
    assert r1.stop == r2.stop;
  }

  /** Inside a quote nothing ends the tag: a quote left open hides every later `/` and `>`. */
  lemma {:induction false} QuoteStaysOpen(input: string, from: nat, k: nat, j: nat, m: char)
    requires from <= k <= j <= |input| && QuoteIn(input, from, k) == Quoted(m)
    requires forall l :: k <= l < j ==> input[l] != m
    ensures QuoteIn(input, from, j) == Quoted(m)
    decreases j - k
  {
    if k < j {
      QuoteStaysOpen(input, from, k, j - 1, m);
    }
  }

  // ---------------------------------------------------------------------
  // Phase 2: pairing names with values.

  function Prepend(t: Token, r: Outcome<seq<Token>>): Outcome<seq<Token>>
  {
    match r
    case Success(ts) => Success([t] + ts)
    case Failure(f) => Failure(f)
  }

  /**
   * The walk over the words from index i. Shapes, in the order the code
   * tests them: `key=` takes the next word whole as its value; `k=v` splits
   * at the first `=` and keeps the `=` in the value; a last word is a bare
   * name; a word followed by a word not starting with `=` is a bare name;
   * `k = v` takes the word after the `=`; `k =v` takes the next word minus
   * its first character. `key=` as the last word, and `k =` as the last two
   * words, read past the end of the word list.
   */
  function Pairs(words: seq<string>, i: nat): (r: Outcome<seq<Token>>)
    decreases |words| - i
  {
    if i >= |words| then Success([])
    else
      var word := words[i];
      if |word| > 0 && word[|word| - 1] == '=' then
        if i + 1 < |words| then Prepend(Attr(word[..|word| - 1], Some(words[i + 1])), Pairs(words, i + 2))
        else Failure(IndexOutOfRange)
      else match Find(word, "=")
        case Some(eqIndex) =>
          Prepend(Attr(word[..eqIndex], Some(word[eqIndex..])), Pairs(words, i + 1))
        case None =>
          if i + 1 >= |words| then Success([Attr(word, None)])
          else
            var nextWord := words[i + 1];
            if !(|nextWord| > 0 && nextWord[0] == '=') then
              Prepend(Attr(word, None), Pairs(words, i + 1))
            else if nextWord == "=" then
              if i + 2 < |words| then Prepend(Attr(word, Some(words[i + 2])), Pairs(words, i + 3))
              else Failure(IndexOutOfRange)
            else
              Prepend(Attr(word, Some(nextWord[1..])), Pairs(words, i + 2))
  }

  /** The walk's first step from index i, one case per shape. */
  lemma PairsUnfold(words: seq<string>, i: nat)
    requires i < |words|
    ensures var word := words[i];
            && (|word| > 0 && word[|word| - 1] == '=' && i + 1 < |words| ==>
                  Pairs(words, i) == Prepend(Attr(word[..|word| - 1], Some(words[i + 1])), Pairs(words, i + 2)))
            && (!(|word| > 0 && word[|word| - 1] == '=') && Find(word, "=").Some? ==>
                  var eq := Find(word, "=").value;
                  Pairs(words, i) == Prepend(Attr(word[..eq], Some(word[eq..])), Pairs(words, i + 1)))
            && (!(|word| > 0 && word[|word| - 1] == '=') && Find(word, "=").None? && i + 1 >= |words| ==>
                  Pairs(words, i) == Success([Attr(word, None)]))
            && (!(|word| > 0 && word[|word| - 1] == '=') && Find(word, "=").None? && i + 1 < |words| ==>
                  var nextWord := words[i + 1];
                  && (!(|nextWord| > 0 && nextWord[0] == '=') ==>
                        Pairs(words, i) == Prepend(Attr(word, None), Pairs(words, i + 1)))
                  && (nextWord == "=" && i + 2 < |words| ==>
                        Pairs(words, i) == Prepend(Attr(word, Some(words[i + 2])), Pairs(words, i + 3)))
                  && (|nextWord| > 0 && nextWord[0] == '=' && nextWord != "=" ==>
                        Pairs(words, i) == Prepend(Attr(word, Some(nextWord[1..])), Pairs(words, i + 2))))
  {
  }

  /** Every word goes to exactly one attribute, and one attribute takes at most three words. */
  lemma {:induction false} PairsCount(words: seq<string>, i: nat)
    requires i <= |words| && Pairs(words, i).Success?
    ensures var a := Pairs(words, i).value;
            |a| <= |words| - i <= 3 * |a|
    ensures forall k :: 0 <= k < |Pairs(words, i).value| ==> Pairs(words, i).value[k].Attr?
    decreases |words| - i
  {
    if i < |words| {
      var word := words[i];
      if |word| > 0 && word[|word| - 1] == '=' {
        PairsCount(words, i + 2);
      } else if Find(word, "=").Some? {
        PairsCount(words, i + 1);
      } else if i + 1 < |words| {
        var nextWord := words[i + 1];
        if !(|nextWord| > 0 && nextWord[0] == '=') {
          PairsCount(words, i + 1);
        } else if nextWord == "=" {
          PairsCount(words, i + 3);
        } else {
          PairsCount(words, i + 2);
        }
      }
    }
  }

  /**
   * How many words the attribute read at word i takes, by the shape of the
   * word and of the one after it: `key=` takes two, `k=v` one, a bare name
   * one, `k = v` three and `k =v` two.
   */
  function Width(words: seq<string>, i: nat): (r: nat)
    requires i < |words|
    ensures 1 <= r <= 3
  {
    var word := words[i];
    if |word| > 0 && word[|word| - 1] == '=' then 2
    else if Find(word, "=").Some? then 1
    else if i + 1 >= |words| then 1
    else if !(|words[i + 1]| > 0 && words[i + 1][0] == '=') then 1
    else if words[i + 1] == "=" then 3
    else 2
  }

  /** A group of words: the index of its first word and how many it has. */
  datatype Group = Group(start: nat, width: nat)

  /**
   * The words from i cut into consecutive groups, each as wide as the
   * attribute read at its first word; None when the last group would need
   * words past the end.
   */
  function Groups(words: seq<string>, i: nat): (r: Option<seq<Group>>)
    requires i <= |words|
    ensures r.Some? ==> var g := r.value;
            && (|g| == 0 <==> i == |words|)
            && (|g| > 0 ==> g[0].start == i)
            && (forall k :: 0 <= k < |g| ==> i <= g[k].start < |words| && g[k].start + g[k].width <= |words|)
            && (forall k :: 0 <= k < |g| ==> g[k].start + g[k].width == if k + 1 < |g| then g[k + 1].start else |words|)
    decreases |words| - i
  {
    if i == |words| then Some([])
    else
      var w := Width(words, i);
      if i + w > |words| then None
      else match Groups(words, i + w)
        case None => None
        case Some(g) =>
          var r := [Group(i, w)] + g;
          assert forall k :: 1 <= k < |r| ==> r[k] == g[k - 1];
          Some(r)
  }

  /** Each group is as wide as the attribute read at its first word. */
  lemma {:induction false} GroupWidths(words: seq<string>, i: nat)
    requires i <= |words| && Groups(words, i).Some?
    ensures var g := Groups(words, i).value;
            forall k :: 0 <= k < |g| ==> g[k].start < |words| && g[k].width == Width(words, g[k].start)
    decreases |words| - i
  {
    if i < |words| {
      var w := Width(words, i);
      GroupWidths(words, i + w);
      var g' := Groups(words, i + w).value;
      var g := Groups(words, i).value;
      assert g == [Group(i, w)] + g';
      forall k | 0 <= k < |g|
        ensures g[k].start < |words| && g[k].width == Width(words, g[k].start)
      {
        if k > 0 {
          assert g[k] == g'[k - 1];
        }
      }
    }
  }

  /** An attribute written back as the words it was read from, joined: name, then `=` and the value unless the one word held both. */
  function Render(t: Token, width: nat): string
  {
    match t
    case Attr(name, None) => name
    case Attr(name, Some(v)) => if width == 1 then name + v else name + "=" + v
    case _ => []
  }

  lemma ConcatOne(a: string)
    ensures Concat([a]) == a
  {
    assert [a][..0] == [];
  }

  lemma ConcatTwo(a: string, b: string)
    ensures Concat([a, b]) == a + b
  {
    assert [a, b][..1] == [a];
    ConcatOne(a);
  }

  lemma ConcatThree(a: string, b: string, c: string)
    ensures Concat([a, b, c]) == a + b + c
  {
    assert [a, b, c][..2] == [a, b];
    ConcatTwo(a, b);
  }

  /** `key=` and the next word: the name is the word without its last `=`, the value the next word. */
  lemma RenderKeyEquals(words: seq<string>, i: nat)
    requires i + 1 < |words| && |words[i]| > 0 && words[i][|words[i]| - 1] == '='
    ensures Pairs(words, i).Success? ==>
              Pairs(words, i).value != [] && Render(Pairs(words, i).value[0], 2) == Concat(words[i..i + 2])
  {
    var word := words[i];
    assert words[i..i + 2] == [word, words[i + 1]];
    ConcatTwo(word, words[i + 1]);
    assert word[..|word| - 1] + "=" == word;
  }

  /** `k=v` in one word: name and value are the word cut at its first `=`. */
  lemma RenderInner(words: seq<string>, i: nat)
    requires i < |words| && !(|words[i]| > 0 && words[i][|words[i]| - 1] == '=') && Find(words[i], "=").Some?
    ensures Pairs(words, i).Success? ==>
              Pairs(words, i).value != [] && Render(Pairs(words, i).value[0], 1) == Concat(words[i..i + 1])
  {
    var word := words[i];
    var eq := Find(word, "=").value;
    var t := Attr(word[..eq], Some(word[eq..]));
    assert Pairs(words, i) == Prepend(t, Pairs(words, i + 1));
    assert Render(t, 1) == word by {
      assert word[..eq] + word[eq..] == word;
    }
    assert words[i..i + 1] == [word];
    ConcatOne(word);
  }

  /** A bare name is its word. */
  lemma RenderBare(words: seq<string>, i: nat)
    requires i < |words| && !(|words[i]| > 0 && words[i][|words[i]| - 1] == '=') && Find(words[i], "=").None?
    requires i + 1 >= |words| || !(|words[i + 1]| > 0 && words[i + 1][0] == '=')
    ensures Pairs(words, i).Success? ==>
              Pairs(words, i).value != [] && Render(Pairs(words, i).value[0], 1) == Concat(words[i..i + 1])
  {
    assert words[i..i + 1] == [words[i]];
    ConcatOne(words[i]);
  }

  /** `k = v`: name, `=` and value are three words. */
  lemma RenderSpaced(words: seq<string>, i: nat)
    requires i + 2 < |words| && !(|words[i]| > 0 && words[i][|words[i]| - 1] == '=') && Find(words[i], "=").None?
    requires words[i + 1] == "="
    ensures Pairs(words, i).Success? ==>
              Pairs(words, i).value != [] && Render(Pairs(words, i).value[0], 3) == Concat(words[i..i + 3])
  {
    assert words[i..i + 3] == [words[i], words[i + 1], words[i + 2]];
    ConcatThree(words[i], words[i + 1], words[i + 2]);
  }

  /** `k =v`: the value is the second word without its leading `=`. */
  lemma RenderGlued(words: seq<string>, i: nat)
    requires i + 1 < |words| && !(|words[i]| > 0 && words[i][|words[i]| - 1] == '=') && Find(words[i], "=").None?
    requires |words[i + 1]| > 0 && words[i + 1][0] == '=' && words[i + 1] != "="
    ensures Pairs(words, i).Success? ==>
              Pairs(words, i).value != [] && Render(Pairs(words, i).value[0], 2) == Concat(words[i..i + 2])
  {
    assert words[i..i + 2] == [words[i], words[i + 1]];
    ConcatTwo(words[i], words[i + 1]);
    assert "=" + words[i + 1][1..] == words[i + 1];
  }

  /** The attribute read at word i, written back, is the words of its group joined. */
  lemma FirstRender(words: seq<string>, i: nat)
    requires i < |words| && i + Width(words, i) <= |words|
    ensures Pairs(words, i).Success? ==>
              Pairs(words, i).value != [] &&
              Render(Pairs(words, i).value[0], Width(words, i)) == Concat(words[i..i + Width(words, i)])
  {
    var word := words[i];
    if |word| > 0 && word[|word| - 1] == '=' {
      RenderKeyEquals(words, i);
    } else if Find(word, "=").Some? {
      RenderInner(words, i);
    } else if i + 1 >= |words| || !(|words[i + 1]| > 0 && words[i + 1][0] == '=') {
      RenderBare(words, i);
    } else if words[i + 1] == "=" {
      RenderSpaced(words, i);
    } else {
      RenderGlued(words, i);
    }
  }

  /** The walk succeeds exactly when the words cut into whole groups. */
  lemma {:induction false} PairsDefined(words: seq<string>, i: nat)
    requires i <= |words|
    ensures Pairs(words, i).Success? <==> Groups(words, i).Some?
    ensures Pairs(words, i).Success? ==> |Pairs(words, i).value| == |Groups(words, i).value|
    decreases |words| - i
  {
    if i < |words| {
      var w := Width(words, i);
      if i + w <= |words| {
        PairsDefined(words, i + w);
        PairsStep(words, i);
      } else {
        PairsOverrun(words, i);
      }
    }
  }

  /** The attribute t, written back, is the words of group grp joined. */
  predicate RendersAs(words: seq<string>, t: Token, grp: Group)
  {
    grp.start + grp.width <= |words| && Render(t, grp.width) == Concat(words[grp.start..grp.start + grp.width])
  }

  /**
   * Every word goes to exactly one attribute: the walk succeeds exactly
   * when the words cut into whole groups; then there is one attribute per
   * group, in order, and each attribute written back is its group's words.
   */
  lemma PairsGroups(words: seq<string>, i: nat)
    requires i <= |words|
    ensures Pairs(words, i).Success? <==> Groups(words, i).Some?
    ensures Pairs(words, i).Success? ==>
              var a := Pairs(words, i).value;
              var g := Groups(words, i).value;
              |a| == |g| && forall k :: 0 <= k < |a| && k < |g| ==> RendersAs(words, a[k], g[k])
  {
    PairsDefined(words, i);
    if Pairs(words, i).Success? {
      PairsRender(words, i);
    }
  }

  /** The second half of PairsGroups, by induction over the groups. */
  lemma {:induction false} PairsRender(words: seq<string>, i: nat)
    requires i <= |words| && Pairs(words, i).Success? && Groups(words, i).Some?
    ensures var a := Pairs(words, i).value;
            var g := Groups(words, i).value;
            |a| == |g| && forall k :: 0 <= k < |a| && k < |g| ==> RendersAs(words, a[k], g[k])
    decreases |words| - i
  {
    if i < |words| {
      var w := Width(words, i);
      GroupsStep(words, i);
      PairsStep(words, i);
      PairsRender(words, i + w);
      var a := Pairs(words, i).value;
      assert RendersAs(words, a[0], Group(i, w)) by {
        FirstRender(words, i);
      }
      RenderAll(words, a[0], Pairs(words, i + w).value, Group(i, w), Groups(words, i + w).value);
      assert a == [a[0]] + a[1..];
    }
  }

  /** The groups from i are the group at i followed by the groups from its end. */
  lemma GroupsStep(words: seq<string>, i: nat)
    requires i < |words| && Groups(words, i).Some?
    ensures i + Width(words, i) <= |words| && Groups(words, i + Width(words, i)).Some?
    ensures Groups(words, i).value == [Group(i, Width(words, i))] + Groups(words, i + Width(words, i)).value
  {
  }

  /** Rendering group by group extends past a first group that renders. */
  lemma RenderAll(words: seq<string>, t: Token, a: seq<Token>, g0: Group, g: seq<Group>)
    requires RendersAs(words, t, g0) && |a| == |g|
    requires forall k :: 0 <= k < |a| && k < |g| ==> RendersAs(words, a[k], g[k])
    ensures var a' := [t] + a;
            var g' := [g0] + g;
            forall k :: 0 <= k < |a'| && k < |g'| ==> RendersAs(words, a'[k], g'[k])
  {
    var a' := [t] + a;
    var g' := [g0] + g;
    forall k | 0 <= k < |a'| && k < |g'|
      ensures RendersAs(words, a'[k], g'[k])
    {
      if k > 0 {
        assert a'[k] == a[k - 1] && g'[k] == g[k - 1];
      }
    }
  }

  /** The walk from i is the attribute read there followed by the walk from the end of its group. */
  lemma PairsStep(words: seq<string>, i: nat)
    requires i < |words| && i + Width(words, i) <= |words|
    ensures Pairs(words, i).Success? <==> Pairs(words, i + Width(words, i)).Success?
    ensures Pairs(words, i).Success? ==>
              Pairs(words, i).value[1..] == Pairs(words, i + Width(words, i)).value
              && |Pairs(words, i).value| == 1 + |Pairs(words, i + Width(words, i)).value|
  {
    if Pairs(words, i).Success? {
      assert Pairs(words, i).value ==
        [Pairs(words, i).value[0]] + Pairs(words, i + Width(words, i)).value;
    }
  }

  /** A group that needs words past the end: the walk reads past the end of the word list. */
  lemma PairsOverrun(words: seq<string>, i: nat)
    requires i < |words| && i + Width(words, i) > |words|
    ensures Pairs(words, i) == Failure(IndexOutOfRange)
  {
  }

  /**
   * Over non-empty words, a value that is present is never empty, so Go's
   * empty Content marks a bare attribute without ambiguity; a bare name is
   * a whole word that holds no `=`.
   */
  lemma {:induction false} PairsValues(words: seq<string>, i: nat)
    requires forall k :: 0 <= k < |words| ==> |words[k]| > 0
    requires Pairs(words, i).Success?
    ensures forall t :: t in Pairs(words, i).value ==>
              && t.Attr?
              && (t.value.Some? ==> |t.value.value| > 0)
              && (t.value.None? ==> t.name in words[i..] && |t.name| > 0 && '=' !in t.name)
    decreases |words| - i
  {
    if i < |words| {
      var word := words[i];
      if |word| > 0 && word[|word| - 1] == '=' {
        PairsValues(words, i + 2);
        SuffixWords(words, i, i + 2);
      } else if Find(word, "=").Some? {
        PairsValues(words, i + 1);
        SuffixWords(words, i, i + 1);
      } else {
        forall k | 0 <= k < |word|
          ensures word[k] != '='
        {
          assert !OccursAt(word, "=", k);
          assert word[k..k + 1] == [word[k]];
        }
        assert word in words[i..];
        if i + 1 < |words| {
          var nextWord := words[i + 1];
          if !(|nextWord| > 0 && nextWord[0] == '=') {
            PairsValues(words, i + 1);
            SuffixWords(words, i, i + 1);
          } else if nextWord == "=" {
            PairsValues(words, i + 3);
            SuffixWords(words, i, i + 3);
          } else {
            PairsValues(words, i + 2);
            SuffixWords(words, i, i + 2);
          }
        }
      }
    }
  }

  lemma SuffixWords(words: seq<string>, i: nat, j: nat)
    requires i <= j <= |words|
    ensures forall w :: w in words[j..] ==> w in words[i..]
  {
    forall w | w in words[j..] ensures w in words[i..] {
      var k :| 0 <= k < |words[j..]| && words[j..][k] == w;
      assert words[i..][k + j - i] == w;
    }
  }

  /**
   * lexTagAttrs: split at the cursor; move the cursor onto the `/` or `>`
   * that ended the split (not past it), or leave it where it was; then
   * append one attribute token per pair.
   */
  function AttrsStep(input: string, st: Scan): (r: Outcome<Scan>)
    requires st.pos.index <= |input|
    ensures r.Success? <==> Pairs(SplitWords(input, st.pos.index).words, 0).Success?
    ensures r.Success? ==>
              var split := SplitWords(input, st.pos.index);
              && st.pos.index <= r.value.pos.index <= |input|
              && r.value.tokens == st.tokens + Pairs(split.words, 0).value
              && r.value.tokens[..|st.tokens|] == st.tokens
              && (split.stop.None? ==> r.value.pos == st.pos)
              && (split.stop.Some? ==>
                    && r.value.pos.index == split.stop.value
                    && (input[split.stop.value] == '/' || input[split.stop.value] == '>')
                    && r.value.pos == Advance(input, st.pos, split.stop.value))
  {
    var split := SplitWords(input, st.pos.index);
    var p := if split.stop.Some? then Advance(input, st.pos, split.stop.value) else st.pos;
    match Pairs(split.words, 0)
    case Failure(f) => Failure(f)
    case Success(attrs) =>
      assert (st.tokens + attrs)[..|st.tokens|] == st.tokens;
      Success(Scan(p, st.tokens + attrs))
  }

}
