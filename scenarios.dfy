/** Whole runs of Lex on small inputs, showing its rules and quirks. */
module Scenarios {
  import opened Wrappers
  import opened Utils
  import opened Positions
  import opened Tokens
  import opened Text
  import opened Comments
  import opened Attrs
  import opened Tags
  import opened Driver

  /** The opening and the name of the tag in `<div/>`. */
  lemma DivSlashTagName()
    ensures TagOpen("<div/>", Scan(Origin, []), true) == Scan(Position(1, 0, 1), [TagStart(false, Origin)])
    ensures TagNameStep("<div/>", Scan(Position(1, 0, 1), [TagStart(false, Origin)]), true) == (Scan(Position(5, 0, 5), [TagStart(false, Origin), TagName("div/", Position(1, 0, 1), Position(5, 0, 5))]), "div/")
  {
    var input := "<div/>";
    AdvanceOnLine(input, Origin, 1);
    assert NameStart(input, 1) == 1;
    assert NameEnd(input, 1) == 5;
    assert input[1..5] == "div/";
    AdvanceOnLine(input, Position(1, 0, 1), 5);
    assert [TagStart(false, Origin)] + [TagName("div/", Position(1, 0, 1), Position(5, 0, 5))] == [TagStart(false, Origin), TagName("div/", Position(1, 0, 1), Position(5, 0, 5))];
  }

  /** The attributes and the end of the tag in `<div/>`. */
  lemma DivSlashTagEnd()
    ensures AttrsStep("<div/>", Scan(Position(5, 0, 5), [TagStart(false, Origin), TagName("div/", Position(1, 0, 1), Position(5, 0, 5))])) == Success(Scan(Position(5, 0, 5), [TagStart(false, Origin), TagName("div/", Position(1, 0, 1), Position(5, 0, 5))]))
    ensures TagClose("<div/>", Scan(Position(5, 0, 5), [TagStart(false, Origin), TagName("div/", Position(1, 0, 1), Position(5, 0, 5))]), true) == Success(Scan(Position(6, 0, 6), [TagStart(false, Origin), TagName("div/", Position(1, 0, 1), Position(5, 0, 5)), TagEnd(false, Position(6, 0, 6))]))
  {
    var input := "<div/>";
    var st2 := Scan(Position(5, 0, 5), [TagStart(false, Origin), TagName("div/", Position(1, 0, 1), Position(5, 0, 5))]);
    assert AttrsStep(input, st2) == Success(Scan(Position(5, 0, 5), [TagStart(false, Origin), TagName("div/", Position(1, 0, 1), Position(5, 0, 5))])) by {
      assert SplitWords(input, 5) == Words([], Some(5));
      assert Pairs([], 0) == Success([]);
      assert st2.tokens + [] == st2.tokens;
    }
    assert input[5..6] == ">";
    AdvanceOnLine(input, Position(5, 0, 5), 6);
    assert [TagStart(false, Origin), TagName("div/", Position(1, 0, 1), Position(5, 0, 5))] + [TagEnd(false, Position(6, 0, 6))] == [TagStart(false, Origin), TagName("div/", Position(1, 0, 1), Position(5, 0, 5)), TagEnd(false, Position(6, 0, 6))];
  }

  /** The tag step over `<div/>`. */
  lemma DivSlashTag()
    ensures TagStep("<div/>", Scan(Origin, []), true) == Success((Scan(Position(6, 0, 6), [TagStart(false, Origin), TagName("div/", Position(1, 0, 1), Position(5, 0, 5)), TagEnd(false, Position(6, 0, 6))]), "div/"))
  {
    DivSlashTagName();
    DivSlashTagEnd();
  }

  /** `/` does not end a tag name, so `<div/>` is the tag `div/` with a plain `>` end. */
  lemma SlashStaysInName()
    ensures LexAll("<div/>") == Success(Scan(Position(6, 0, 6), [
              TagStart(false, Origin),
              TagName("div/", Position(1, 0, 1), Position(5, 0, 5)),
              TagEnd(false, Position(6, 0, 6))]))
  {
    var input := "<div/>";
    var st := Scan(Origin, []);
    var u := Scan(Position(6, 0, 6), [TagStart(false, Origin), TagName("div/", Position(1, 0, 1), Position(5, 0, 5)), TagEnd(false, Position(6, 0, 6))]);
    assert TextStep(input, st) == st by {
      assert TextEnd(input, 0) == 0;
    }
    assert !IsCommentStart(input, 0) by {
      assert input[0..1] == "<";
    }
    DivSlashTag();
    assert LexStep(input, st) == Success(u);
    assert Run(input, u) == Success(u);
  }

  /** A newline moves the cursor to the next line and resets the column. */
  lemma TextOverTwoLines()
    ensures LexAll("a\nb") == Success(Scan(Position(3, 1, 1), [Text("a\nb", Origin, Position(3, 1, 1))]))
  {
    var input := "a\nb";
    assert forall j :: 0 <= j < |input| ==> !OpensConstruct(input, j);
    PlainText(input);
    AdvanceLines(input, Origin, 3);
    AdvanceColumn(input, Origin, 3);
    assert input[0..3] == input;
    assert "a"[..0] == [] && "a\n"[..1] == "a" && input[..2] == "a\n";
    assert NewlineCount("a") == 0;
    assert NewlineCount("a\n") == 1;
    assert NewlineCount(input) == 1;
    assert input[1] == '\n';
    assert Advance(input, Origin, 3) == Position(3, 1, 1);
  }

  /** The opening and the name of the tag in `<hr />`. */
  lemma HrTagName()
    ensures TagOpen("<hr />", Scan(Origin, []), true) == Scan(Position(1, 0, 1), [TagStart(false, Origin)])
    ensures TagNameStep("<hr />", Scan(Position(1, 0, 1), [TagStart(false, Origin)]), true) == (Scan(Position(3, 0, 3), [TagStart(false, Origin), TagName("hr", Position(1, 0, 1), Position(3, 0, 3))]), "hr")
  {
    var input := "<hr />";
    AdvanceOnLine(input, Origin, 1);
    assert NameStart(input, 1) == 1;
    assert NameEnd(input, 1) == 3;
    assert input[1..3] == "hr";
    AdvanceOnLine(input, Position(1, 0, 1), 3);
    assert [TagStart(false, Origin)] + [TagName("hr", Position(1, 0, 1), Position(3, 0, 3))] == [TagStart(false, Origin), TagName("hr", Position(1, 0, 1), Position(3, 0, 3))];
  }

  /** The attributes and the end of the tag in `<hr />`. */
  lemma HrTagEnd()
    ensures AttrsStep("<hr />", Scan(Position(3, 0, 3), [TagStart(false, Origin), TagName("hr", Position(1, 0, 1), Position(3, 0, 3))])) == Success(Scan(Position(4, 0, 4), [TagStart(false, Origin), TagName("hr", Position(1, 0, 1), Position(3, 0, 3))]))
    ensures TagClose("<hr />", Scan(Position(4, 0, 4), [TagStart(false, Origin), TagName("hr", Position(1, 0, 1), Position(3, 0, 3))]), true) == Success(Scan(Position(6, 0, 6), [TagStart(false, Origin), TagName("hr", Position(1, 0, 1), Position(3, 0, 3)), TagEnd(true, Position(6, 0, 6))]))
  {
    var input := "<hr />";
    var st2 := Scan(Position(3, 0, 3), [TagStart(false, Origin), TagName("hr", Position(1, 0, 1), Position(3, 0, 3))]);
    assert AttrsStep(input, st2) == Success(Scan(Position(4, 0, 4), [TagStart(false, Origin), TagName("hr", Position(1, 0, 1), Position(3, 0, 3))])) by {
      assert SplitWords(input, 3) == Words([], Some(4));
      assert Pairs([], 0) == Success([]);
      assert st2.tokens + [] == st2.tokens;
      AdvanceOnLine(input, Position(3, 0, 3), 4);
    }
    AdvanceOnLine(input, Position(4, 0, 4), 6);
    assert [TagStart(false, Origin), TagName("hr", Position(1, 0, 1), Position(3, 0, 3))] + [TagEnd(true, Position(6, 0, 6))] == [TagStart(false, Origin), TagName("hr", Position(1, 0, 1), Position(3, 0, 3)), TagEnd(true, Position(6, 0, 6))];
  }

  /** The tag step over `<hr />`. */
  lemma HrTag()
    ensures TagStep("<hr />", Scan(Origin, []), true) == Success((Scan(Position(6, 0, 6), [TagStart(false, Origin), TagName("hr", Position(1, 0, 1), Position(3, 0, 3)), TagEnd(true, Position(6, 0, 6))]), "hr"))
  {
    HrTagName();
    HrTagEnd();
  }

  /** `<hr />`: the name stops at the space and the `/>` makes the end self-closing. */
  lemma SelfClosing()
    ensures LexAll("<hr />") == Success(Scan(Position(6, 0, 6), [
              TagStart(false, Origin),
              TagName("hr", Position(1, 0, 1), Position(3, 0, 3)),
              TagEnd(true, Position(6, 0, 6))]))
  {
    var input := "<hr />";
    var st := Scan(Origin, []);
    var u := Scan(Position(6, 0, 6), [TagStart(false, Origin), TagName("hr", Position(1, 0, 1), Position(3, 0, 3)), TagEnd(true, Position(6, 0, 6))]);
    assert TextStep(input, st) == st by {
      assert TextEnd(input, 0) == 0;
    }
    assert !IsCommentStart(input, 0) by {
      assert input[0..1] == "<";
    }
    HrTag();
    assert LexStep(input, st) == Success(u);
    assert Run(input, u) == Success(u);
  }

  /** A tag whose name runs to the end of the input never finishes: the closing step's target lies past the end. */
  lemma UnfinishedTag()
    ensures LexAll("<div") == Failure(Hang)
  {
    var input := "<div";
    var st := Scan(Origin, []);
    assert TextEnd(input, 0) == 0;
    assert TextStep(input, st) == st;
    assert !IsCommentStart(input, 0);
    AdvanceOnLine(input, Origin, 1);
    var st1 := TagOpen(input, st, true);
    assert NameStart(input, 1) == 1;
    assert NameEnd(input, 1) == 4;
    var st2 := TagNameStep(input, st1, true).0;
    assert st2.pos.index == 4;
    assert SplitWords(input, 4) == Words([], None);
    assert AttrsStep(input, st2).value.pos == st2.pos;
    assert TagClose(input, AttrsStep(input, st2).value, true) == Failure(Hang);
  }

  /** A `/` that is the last character hangs the closing step too. */
  lemma SlashAtEnd()
    ensures LexAll("<div /") == Failure(Hang)
  {
    var input := "<div /";
    var st := Scan(Origin, []);
    assert TextEnd(input, 0) == 0;
    assert TextStep(input, st) == st;
    assert !IsCommentStart(input, 0);
    AdvanceOnLine(input, Origin, 1);
    var st1 := TagOpen(input, st, true);
    assert NameStart(input, 1) == 1;
    assert NameEnd(input, 1) == 4;
    var st2 := TagNameStep(input, st1, true).0;
    assert st2.pos.index == 4;
    assert SplitWords(input, 4) == Words([], Some(5));
    assert AttrsStep(input, st2).value.pos.index == 5;
    assert TagClose(input, AttrsStep(input, st2).value, true) == Failure(Hang);
  }

  /**
   * A last `/` that the cursor never reaches does not hang: the quote keeps
   * the attribute split from stopping, the cursor stays on the space, and
   * the closing step consumes that one character.
   */
  lemma LastSlashNotReached()
    ensures TagStep("<a \"/", Scan(Origin, []), true).Success?
    ensures TagStep("<a \"/", Scan(Origin, []), true).value.0.pos.index == 3
    ensures TagStep("<a \"/", Scan(Origin, []), true).value.0.tokens[2] == TagEnd(false, Position(3, 0, 3))
  {
    var input := "<a \"/";
    var st := Scan(Origin, []);
    AdvanceOnLine(input, Origin, 1);
    var st1 := TagOpen(input, st, true);
    assert NameStart(input, 1) == 1;
    assert NameEnd(input, 1) == 2;
    var st2 := TagNameStep(input, st1, true).0;
    assert st2.pos == Position(2, 0, 2);
    assert SplitWords(input, 2) == Words([], None);
    var st3 := AttrsStep(input, st2).value;
    assert st3.pos == st2.pos;
    AdvanceOnLine(input, st3.pos, 3);
    assert TagClose(input, st3, true).value.pos == Position(3, 0, 3);
  }

  /** A `key=` word with no word after it reads past the end of the word list. */
  lemma MissingValue()
    ensures LexAll("<a b=>") == Failure(IndexOutOfRange)
  {
    var input := "<a b=>";
    var st := Scan(Origin, []);
    assert TextEnd(input, 0) == 0;
    assert TextStep(input, st) == st;
    assert !IsCommentStart(input, 0);
    AdvanceOnLine(input, Origin, 1);
    var st1 := TagOpen(input, st, true);
    assert NameStart(input, 1) == 1;
    assert NameEnd(input, 1) == 2;
    var st2 := TagNameStep(input, st1, true).0;
    assert st2.pos.index == 2;
    assert input[3..5] == "b=";
    assert SplitWords(input, 2) == Words(["b="], Some(5));
    assert Pairs(["b="], 0) == Failure(IndexOutOfRange);
    assert AttrsStep(input, st2) == Failure(IndexOutOfRange);
  }

  lemma AbsentNotFound(s: string, c: char)
    requires forall k :: 0 <= k < |s| ==> s[k] != c
    ensures Find(s, [c]) == None
  {
    forall k | 0 <= k <= |s|
      ensures !OccursAt(s, [c], k)
    {
      if k + 1 <= |s| {
        assert s[k..k + 1][0] == s[k];
      }
    }
  }

  lemma FoundAt(s: string, c: char, k: nat)
    requires k < |s| && s[k] == c
    requires forall j :: 0 <= j < k ==> s[j] != c
    ensures Find(s, [c]) == Some(k)
  {
    forall j | 0 <= j < k
      ensures !OccursAt(s, [c], j)
    {
      assert s[j..j + 1][0] == s[j];
    }
    assert s[k..k + 1] == [c];
    FindIsFirst(s, [c], k);
  }

  /** The last four words of the example below: `dd ="dd"`, `ee`, `ff`. */
  lemma PairsTail()
    ensures Pairs(["aa=\"aa\"", "bb", "=", "\"bb\"", "cc=", "\"cc\"", "dd", "=\"dd\"", "ee", "ff"], 6)
            == Success([Attr("dd", Some("\"dd\"")), Attr("ee", None), Attr("ff", None)])
  {
    var w := ["aa=\"aa\"", "bb", "=", "\"bb\"", "cc=", "\"cc\"", "dd", "=\"dd\"", "ee", "ff"];
    AbsentNotFound("ff", '=');
    AbsentNotFound("ee", '=');
    AbsentNotFound("dd", '=');
    assert w[7][1..] == "\"dd\"" && w[7][0] == '=';
    assert w[9][0] == 'f';
    var a9 := [Attr("ff", None)];
    PairsUnfold(w, 9);
    assert Pairs(w, 9) == Success(a9);
    var a8 := [Attr("ee", None)] + a9;
    PairsUnfold(w, 8);
    assert Pairs(w, 8) == Success(a8);
    var a6 := [Attr("dd", Some("\"dd\""))] + a8;
    PairsUnfold(w, 6);
    assert Pairs(w, 6) == Success(a6);
    assert a6 == [Attr("dd", Some("\"dd\"")), Attr("ee", None), Attr("ff", None)];
  }

  /** From `cc= "cc"` on. */
  lemma PairsFromFour()
    ensures Pairs(["aa=\"aa\"", "bb", "=", "\"bb\"", "cc=", "\"cc\"", "dd", "=\"dd\"", "ee", "ff"], 4)
            == Success([Attr("cc", Some("\"cc\"")), Attr("dd", Some("\"dd\"")), Attr("ee", None), Attr("ff", None)])
  {
    var w := ["aa=\"aa\"", "bb", "=", "\"bb\"", "cc=", "\"cc\"", "dd", "=\"dd\"", "ee", "ff"];
    assert w[4][..2] == "cc" && w[4][2] == '=';
    PairsTail();
    var a6 := [Attr("dd", Some("\"dd\"")), Attr("ee", None), Attr("ff", None)];
    var a4 := [Attr("cc", Some("\"cc\""))] + a6;
    PairsUnfold(w, 4);
    assert Pairs(w, 4) == Success(a4);
    assert a4 == [Attr("cc", Some("\"cc\"")), Attr("dd", Some("\"dd\"")), Attr("ee", None), Attr("ff", None)];
  }

  /** From `bb = "bb"` on. */
  lemma PairsFromOne()
    ensures Pairs(["aa=\"aa\"", "bb", "=", "\"bb\"", "cc=", "\"cc\"", "dd", "=\"dd\"", "ee", "ff"], 1)
            == Success([Attr("bb", Some("\"bb\"")), Attr("cc", Some("\"cc\"")), Attr("dd", Some("\"dd\"")),
                        Attr("ee", None), Attr("ff", None)])
  {
    var w := ["aa=\"aa\"", "bb", "=", "\"bb\"", "cc=", "\"cc\"", "dd", "=\"dd\"", "ee", "ff"];
    AbsentNotFound("bb", '=');
    assert w[2] == "=";
    PairsFromFour();
    var a4 := [Attr("cc", Some("\"cc\"")), Attr("dd", Some("\"dd\"")), Attr("ee", None), Attr("ff", None)];
    var a1 := [Attr("bb", Some("\"bb\""))] + a4;
    PairsUnfold(w, 1);
    assert Pairs(w, 1) == Success(a1);
    assert a1 == [Attr("bb", Some("\"bb\"")), Attr("cc", Some("\"cc\"")), Attr("dd", Some("\"dd\"")),
                  Attr("ee", None), Attr("ff", None)];
  }

  /** The first word, `aa="aa"`, splits at its `=`, which stays in the value. */
  lemma PairsFirstWord()
    ensures Pairs(["aa=\"aa\"", "bb", "=", "\"bb\"", "cc=", "\"cc\"", "dd", "=\"dd\"", "ee", "ff"], 0)
            == Prepend(Attr("aa", Some("=\"aa\"")), Pairs(["aa=\"aa\"", "bb", "=", "\"bb\"", "cc=", "\"cc\"", "dd", "=\"dd\"", "ee", "ff"], 1))
  {
    var w := ["aa=\"aa\"", "bb", "=", "\"bb\"", "cc=", "\"cc\"", "dd", "=\"dd\"", "ee", "ff"];
    assert w[0][..2] == "aa" && w[0][2..] == "=\"aa\"";
    FoundAt(w[0], '=', 2);
  }

  /** Whitespace outside quotes ends a word: ` ab cd>` gives two words. */
  lemma SpaceEndsWords()
    ensures SplitWords(" ab cd>", 0) == Words(["ab", "cd"], Some(6))
  {
    var s := " ab cd>";
    assert s[1..3] == "ab" && s[4..6] == "cd";
    assert Split(s, 0, 0, Unquoted, []) == Split(s, 1, 1, Unquoted, []);
    PlainWord(s, 1, 3, []);
    LastWord(s, 4, 6, ["ab"]);
    assert ["ab"] + ["cd"] == ["ab", "cd"];
  }

  /** When the input runs out only the open word is dropped: `a b c` keeps `a` and `b`. */
  lemma PendingWordDropped()
    ensures SplitWords("a b c", 0) == Words(["a", "b"], None)
  {
    var s := "a b c";
    assert s[0..1] == "a" && s[2..3] == "b";
    PlainWord(s, 0, 1, []);
    PlainWord(s, 2, 3, ["a"]);
    assert ["a"] + ["b"] == ["a", "b"];
    SkipPlain(s, 4, 5, 4, ["a", "b"]);
  }

  /** No whitespace, tag end or quote mark: a character phase 1 only carries along. */
  predicate PlainChar(c: char)
  {
    !IsWhiteSpace(c) && c != '/' && c != '>' && c != '\'' && c != '"'
  }

  /** input[i..j] holds plain characters only. */
  predicate PlainRun(input: string, i: nat, j: nat)
    requires i <= j <= |input|
    decreases j - i
  {
    i == j || (PlainChar(input[i]) && PlainRun(input, i + 1, j))
  }

  /** Phase 1 over a plain run outside a quote only moves the index. */
  lemma {:induction false} SkipPlain(input: string, i: nat, j: nat, wordStart: nat, words: seq<string>)
    requires wordStart <= i <= j <= |input| && PlainRun(input, i, j)
    ensures Split(input, i, wordStart, Unquoted, words) == Split(input, j, wordStart, Unquoted, words)
    decreases j - i
  {
    if i < j {
      SkipPlain(input, i + 1, j, wordStart, words);
    }
  }

  /** Phase 1 inside a quote runs to the closing mark and leaves the quote. */
  lemma {:induction false} SkipQuoted(input: string, i: nat, j: nat, wordStart: nat, m: char, words: seq<string>)
    requires wordStart <= i <= j < |input| && input[j] == m && m !in input[i..j]
    ensures Split(input, i, wordStart, Quoted(m), words) == Split(input, j + 1, wordStart, Unquoted, words)
    decreases j - i
  {
    if i < j {
      assert input[i] == input[i..j][0] && input[i + 1..j] == input[i..j][1..];
      SkipQuoted(input, i + 1, j, wordStart, m, words);
    }
  }

  /** A plain word ended by whitespace is pushed and the next word starts after it. */
  lemma PlainWord(input: string, a: nat, b: nat, words: seq<string>)
    requires a < b < |input| && PlainRun(input, a, b) && IsWhiteSpace(input[b])
    ensures Split(input, a, a, Unquoted, words) == Split(input, b + 1, b + 1, Unquoted, words + [input[a..b]])
  {
    SkipPlain(input, a, b, a, words);
  }

  /** A word whose plain part input[a..q] is followed by a quoted part closed at b. */
  lemma QuotedWord(input: string, a: nat, q: nat, b: nat, words: seq<string>)
    requires a <= q < b && b + 1 < |input| && PlainRun(input, a, q)
    requires (input[q] == '"' || input[q] == '\'') && input[b] == input[q] && input[q] !in input[q + 1..b]
    requires IsWhiteSpace(input[b + 1])
    ensures Split(input, a, a, Unquoted, words) == Split(input, b + 2, b + 2, Unquoted, words + [input[a..b + 1]])
  {
    SkipPlain(input, a, q, a, words);
    assert Split(input, q, a, Unquoted, words) == Split(input, q + 1, a, Quoted(input[q]), words);
    SkipQuoted(input, q + 1, b, a, input[q], words);
  }

  /** A plain word ended by `/` or `>` is pushed and phase 1 stops there. */
  lemma LastWord(input: string, a: nat, b: nat, words: seq<string>)
    requires a < b < |input| && PlainRun(input, a, b) && (input[b] == '/' || input[b] == '>')
    ensures Split(input, a, a, Unquoted, words) == Words(words + [input[a..b]], Some(b))
  {
    SkipPlain(input, a, b, a, words);
  }

  /**
   * `<div aa="aa" bb = "bb" cc= "cc" dd ="dd" ee ff/>`, a tag with each
   * attribute form the pairing walk knows, written in pieces (one per
   * attribute) so that its characters are cheap to look up.
   */
  const AttrTag: string := "<div aa=\"aa\" " + "bb = \"bb\" " + "cc= \"cc\" " + "dd =\"dd\" " + "ee ff/>"

  /** The word `aa="aa"` of AttrTag, from 5 to the whitespace at 12. */
  lemma AttrTagWord1(words: seq<string>)
    ensures Split(AttrTag, 5, 5, Unquoted, words) == Split(AttrTag, 13, 13, Unquoted, words + ["aa=\"aa\""])
  {
    var s := AttrTag;
    assert s[5..12] == "aa=\"aa\"";
    QuotedWord(s, 5, 8, 11, words);
  }

  /** The word `bb` of AttrTag, from 13 to the whitespace at 15. */
  lemma AttrTagWord2(words: seq<string>)
    ensures Split(AttrTag, 13, 13, Unquoted, words) == Split(AttrTag, 16, 16, Unquoted, words + ["bb"])
  {
    var s := AttrTag;
    assert s[13..15] == "bb";
    PlainWord(s, 13, 15, words);
  }

  /** The word `=` of AttrTag, from 16 to the whitespace at 17. */
  lemma AttrTagWord3(words: seq<string>)
    ensures Split(AttrTag, 16, 16, Unquoted, words) == Split(AttrTag, 18, 18, Unquoted, words + ["="])
  {
    var s := AttrTag;
    assert s[16..17] == "=";
    PlainWord(s, 16, 17, words);
  }

  /** The word `"bb"` of AttrTag, from 18 to the whitespace at 22. */
  lemma AttrTagWord4(words: seq<string>)
    ensures Split(AttrTag, 18, 18, Unquoted, words) == Split(AttrTag, 23, 23, Unquoted, words + ["\"bb\""])
  {
    var s := AttrTag;
    assert s[18..22] == "\"bb\"";
    QuotedWord(s, 18, 18, 21, words);
  }

  /** The word `cc=` of AttrTag, from 23 to the whitespace at 26. */
  lemma AttrTagWord5(words: seq<string>)
    ensures Split(AttrTag, 23, 23, Unquoted, words) == Split(AttrTag, 27, 27, Unquoted, words + ["cc="])
  {
    var s := AttrTag;
    assert s[23..26] == "cc=";
    PlainWord(s, 23, 26, words);
  }

  /** The word `"cc"` of AttrTag, from 27 to the whitespace at 31. */
  lemma AttrTagWord6(words: seq<string>)
    ensures Split(AttrTag, 27, 27, Unquoted, words) == Split(AttrTag, 32, 32, Unquoted, words + ["\"cc\""])
  {
    var s := AttrTag;
    assert s[27..31] == "\"cc\"";
    QuotedWord(s, 27, 27, 30, words);
  }

  /** The word `dd` of AttrTag, from 32 to the whitespace at 34. */
  lemma AttrTagWord7(words: seq<string>)
    ensures Split(AttrTag, 32, 32, Unquoted, words) == Split(AttrTag, 35, 35, Unquoted, words + ["dd"])
  {
    var s := AttrTag;
    assert s[32..34] == "dd";
    PlainWord(s, 32, 34, words);
  }

  /** The word `="dd"` of AttrTag, from 35 to the whitespace at 40. */
  lemma AttrTagWord8(words: seq<string>)
    ensures Split(AttrTag, 35, 35, Unquoted, words) == Split(AttrTag, 41, 41, Unquoted, words + ["=\"dd\""])
  {
    var s := AttrTag;
    assert s[35..40] == "=\"dd\"";
    QuotedWord(s, 35, 36, 39, words);
  }

  /** The word `ee` of AttrTag, from 41 to the whitespace at 43. */
  lemma AttrTagWord9(words: seq<string>)
    ensures Split(AttrTag, 41, 41, Unquoted, words) == Split(AttrTag, 44, 44, Unquoted, words + ["ee"])
  {
    var s := AttrTag;
    assert s[41..43] == "ee";
    PlainWord(s, 41, 43, words);
  }

  /** The word `ff` of AttrTag, ended by the `/` at 46. */
  lemma AttrTagWord10(words: seq<string>)
    ensures Split(AttrTag, 44, 44, Unquoted, words) == Words(words + ["ff"], Some(46))
  {
    var s := AttrTag;
    assert s[44..46] == "ff";
    LastWord(s, 44, 46, words);
  }

  /**
   * The attribute words of AttrTag, read after the name `div`: whitespace
   * outside quotes ends a word, and phase 1 stops at the `/` at 46.
   */
  lemma AttrTagWords()
    ensures SplitWords(AttrTag, 4) == Words(["aa=\"aa\"", "bb", "=", "\"bb\"", "cc=", "\"cc\"", "dd", "=\"dd\"", "ee", "ff"], Some(46))
  {
    assert Split(AttrTag, 4, 4, Unquoted, []) == Split(AttrTag, 5, 5, Unquoted, []);
    AttrTagWord1([]);
    assert [] + ["aa=\"aa\""] == ["aa=\"aa\""];
    AttrTagWord2(["aa=\"aa\""]);
    assert ["aa=\"aa\""] + ["bb"] == ["aa=\"aa\"", "bb"];
    AttrTagWord3(["aa=\"aa\"", "bb"]);
    assert ["aa=\"aa\"", "bb"] + ["="] == ["aa=\"aa\"", "bb", "="];
    AttrTagWord4(["aa=\"aa\"", "bb", "="]);
    assert ["aa=\"aa\"", "bb", "="] + ["\"bb\""] == ["aa=\"aa\"", "bb", "=", "\"bb\""];
    AttrTagWord5(["aa=\"aa\"", "bb", "=", "\"bb\""]);
    assert ["aa=\"aa\"", "bb", "=", "\"bb\""] + ["cc="] == ["aa=\"aa\"", "bb", "=", "\"bb\"", "cc="];
    AttrTagWord6(["aa=\"aa\"", "bb", "=", "\"bb\"", "cc="]);
    assert ["aa=\"aa\"", "bb", "=", "\"bb\"", "cc="] + ["\"cc\""] == ["aa=\"aa\"", "bb", "=", "\"bb\"", "cc=", "\"cc\""];
    AttrTagWord7(["aa=\"aa\"", "bb", "=", "\"bb\"", "cc=", "\"cc\""]);
    assert ["aa=\"aa\"", "bb", "=", "\"bb\"", "cc=", "\"cc\""] + ["dd"] == ["aa=\"aa\"", "bb", "=", "\"bb\"", "cc=", "\"cc\"", "dd"];
    AttrTagWord8(["aa=\"aa\"", "bb", "=", "\"bb\"", "cc=", "\"cc\"", "dd"]);
    assert ["aa=\"aa\"", "bb", "=", "\"bb\"", "cc=", "\"cc\"", "dd"] + ["=\"dd\""] == ["aa=\"aa\"", "bb", "=", "\"bb\"", "cc=", "\"cc\"", "dd", "=\"dd\""];
    AttrTagWord9(["aa=\"aa\"", "bb", "=", "\"bb\"", "cc=", "\"cc\"", "dd", "=\"dd\""]);
    assert ["aa=\"aa\"", "bb", "=", "\"bb\"", "cc=", "\"cc\"", "dd", "=\"dd\""] + ["ee"] == ["aa=\"aa\"", "bb", "=", "\"bb\"", "cc=", "\"cc\"", "dd", "=\"dd\"", "ee"];
    AttrTagWord10(["aa=\"aa\"", "bb", "=", "\"bb\"", "cc=", "\"cc\"", "dd", "=\"dd\"", "ee"]);
    assert ["aa=\"aa\"", "bb", "=", "\"bb\"", "cc=", "\"cc\"", "dd", "=\"dd\"", "ee"] + ["ff"] == ["aa=\"aa\"", "bb", "=", "\"bb\"", "cc=", "\"cc\"", "dd", "=\"dd\"", "ee", "ff"];
  }


  /**
   * The attribute words of `<div aa="aa" bb = "bb" cc= "cc" dd ="dd" ee ff/>`
   * become these attributes: values keep their quotes, and the `k=v` form
   * keeps the `=` in the value.
   */
  lemma AttributeShapes()
    ensures Pairs(["aa=\"aa\"", "bb", "=", "\"bb\"", "cc=", "\"cc\"", "dd", "=\"dd\"", "ee", "ff"], 0)
            == Success([Attr("aa", Some("=\"aa\"")), Attr("bb", Some("\"bb\"")), Attr("cc", Some("\"cc\"")),
                        Attr("dd", Some("\"dd\"")), Attr("ee", None), Attr("ff", None)])
  {
    var a1 := [Attr("bb", Some("\"bb\"")), Attr("cc", Some("\"cc\"")), Attr("dd", Some("\"dd\"")),
               Attr("ee", None), Attr("ff", None)];
    var a0 := [Attr("aa", Some("=\"aa\""))] + a1;
    PairsFirstWord();
    PairsFromOne();
    assert a0 == [Attr("aa", Some("=\"aa\"")), Attr("bb", Some("\"bb\"")), Attr("cc", Some("\"cc\"")),
                  Attr("dd", Some("\"dd\"")), Attr("ee", None), Attr("ff", None)];
  }

  /** AttrTag holds no newline, so positions in it stay on line 0. */
  lemma AttrTagOneLine(p: Position, endIndex: nat)
    requires p.index <= endIndex <= |AttrTag|
    ensures Advance(AttrTag, p, endIndex) == Position(endIndex, p.line, p.column + (endIndex - p.index))
  {
    assert '\n' !in AttrTag;
    AdvanceOnLine(AttrTag, p, endIndex);
  }

  /** The opening of AttrTag: a `<` not followed by `/`. */
  lemma AttrTagOpen()
    ensures TagOpen(AttrTag, Scan(Origin, []), true) == Scan(Position(1, 0, 1), [TagStart(false, Origin)])
  {
    assert AttrTag[1] == 'd';
    AttrTagOneLine(Origin, 1);
  }

  /** The name `div` of AttrTag, ended by the space at 4. */
  lemma AttrTagName()
    ensures TagNameStep(AttrTag, Scan(Position(1, 0, 1), [TagStart(false, Origin)]), true)
            == (Scan(Position(4, 0, 4), [TagStart(false, Origin), TagName("div", Position(1, 0, 1), Position(4, 0, 4))]), "div")
  {
    var s := AttrTag;
    assert NameStart(s, 1) == 1 by {
      assert s[1] == 'd';
    }
    assert NameEnd(s, 1) == 4 by {
      assert s[4] == ' ' && NameEnd(s, 4) == 4;
      assert s[3] == 'v' && NameEnd(s, 3) == 4;
      assert s[2] == 'i' && NameEnd(s, 2) == 4;
      assert s[1] == 'd';
    }
    assert s[1..4] == "div" by {
      assert s[1] == 'd' && s[2] == 'i' && s[3] == 'v';
      assert |s[1..4]| == 3 && s[1..4][0] == 'd' && s[1..4][1] == 'i' && s[1..4][2] == 'v';
    }
    AttrTagOneLine(Position(1, 0, 1), 1);
    AttrTagOneLine(Position(1, 0, 1), 4);
    assert [TagStart(false, Origin)] + [TagName("div", Position(1, 0, 1), Position(4, 0, 4))] == [TagStart(false, Origin), TagName("div", Position(1, 0, 1), Position(4, 0, 4))];
  }

  /** The attributes of AttrTag: the cursor moves onto the `/` at 46. */
  lemma AttrTagAttrs()
    ensures AttrsStep(AttrTag, Scan(Position(4, 0, 4), [TagStart(false, Origin), TagName("div", Position(1, 0, 1), Position(4, 0, 4))]))
            == Success(Scan(Position(46, 0, 46), [TagStart(false, Origin), TagName("div", Position(1, 0, 1), Position(4, 0, 4))] + [Attr("aa", Some("=\"aa\"")), Attr("bb", Some("\"bb\"")), Attr("cc", Some("\"cc\"")),
             Attr("dd", Some("\"dd\"")), Attr("ee", None), Attr("ff", None)]))
  {
    AttrTagWords();
    AttributeShapes();
    AttrTagOneLine(Position(4, 0, 4), 46);
  }

  /** The `/>` of AttrTag makes a self-closing end at 48, the end of the input. */
  lemma AttrTagClose(tokens: seq<Token>)
    ensures TagClose(AttrTag, Scan(Position(46, 0, 46), tokens), true)
            == Success(Scan(Position(48, 0, 48), tokens + [TagEnd(true, Position(48, 0, 48))]))
  {
    assert |AttrTag| == 48 && AttrTag[46] == '/';
    AttrTagOneLine(Position(46, 0, 46), 48);
  }

  /**
   * Lex over AttrTag: one tag start, the name, six attributes (without
   * positions) and a self-closing end, with the cursor at the end.
   */
  lemma AttrTagLexed()
    ensures LexAll(AttrTag) == Success(Scan(Position(48, 0, 48), [TagStart(false, Origin), TagName("div", Position(1, 0, 1), Position(4, 0, 4))] + [Attr("aa", Some("=\"aa\"")), Attr("bb", Some("\"bb\"")), Attr("cc", Some("\"cc\"")),
             Attr("dd", Some("\"dd\"")), Attr("ee", None), Attr("ff", None)] + [TagEnd(true, Position(48, 0, 48))]))
  {
    var s := AttrTag;
    var st := Scan(Origin, []);
    var u := Scan(Position(48, 0, 48), [TagStart(false, Origin), TagName("div", Position(1, 0, 1), Position(4, 0, 4))] + [Attr("aa", Some("=\"aa\"")), Attr("bb", Some("\"bb\"")), Attr("cc", Some("\"cc\"")),
             Attr("dd", Some("\"dd\"")), Attr("ee", None), Attr("ff", None)] + [TagEnd(true, Position(48, 0, 48))]);
    assert TextStep(s, st) == st by {
      assert s[0] == '<' && s[1] == 'd';
      assert TextEnd(s, 0) == 0;
    }
    assert !IsCommentStart(s, 0) by {
      assert s[1] == 'd';
    }
    AttrTagOpen();
    AttrTagName();
    AttrTagAttrs();
    AttrTagClose([TagStart(false, Origin), TagName("div", Position(1, 0, 1), Position(4, 0, 4))] + [Attr("aa", Some("=\"aa\"")), Attr("bb", Some("\"bb\"")), Attr("cc", Some("\"cc\"")),
             Attr("dd", Some("\"dd\"")), Attr("ee", None), Attr("ff", None)]);
    assert TagStep(s, st, true) == Success((u, "div"));
    assert LexStep(s, st) == Success(u);
    assert Run(s, u) == Success(u);
  }

  /**
   * A comment opening five characters in, at `xxxxx<!-->`: the `-->` found at
   * offset 2 of the rest is taken as index 2, so the comment ends where it
   * starts and the loop makes no progress.
   */
  lemma CommentGoesNowhere()
    ensures LexAll("xxxxx<!-->") == Failure(Hang)
  {
    var input := "xxxxx<!-->";
    var st := Scan(Origin, []);
    assert TextEnd(input, 0) == 5;
    AdvanceOnLine(input, Origin, 5);
    var t := TextStep(input, st);
    assert t.pos == Position(5, 0, 5);
    assert LexStep(input, st) == Success(t);
    assert TextEnd(input, 5) == 5;
    assert TextStep(input, t) == t;
    assert input[5..9] == "<!--";
    assert IsCommentStart(input, 5);
    assert input[5..] == "<!-->" && input[5..][2..5] == "-->";
    assert input[5..][0..3][0] == '<' && input[5..][1..4][0] == '!';
    assert !OccursAt(input[5..], "-->", 0) && !OccursAt(input[5..], "-->", 1);
    FindIsFirst(input[5..], "-->", 2);
    var u := CommentStep(input, t).value;
    assert u.pos == t.pos;
    assert LexStep(input, t) == Success(u);
  }

  /** One character further in, the comment's end lies before its start and the slice panics. */
  lemma CommentEndsBeforeStart()
    ensures LexAll("xxxxxx<!-->") == Failure(SliceOutOfRange)
  {
    var input := "xxxxxx<!-->";
    var st := Scan(Origin, []);
    assert TextEnd(input, 0) == 6;
    AdvanceOnLine(input, Origin, 6);
    var t := TextStep(input, st);
    assert t.pos == Position(6, 0, 6);
    assert LexStep(input, st) == Success(t);
    assert TextEnd(input, 6) == 6;
    assert TextStep(input, t) == t;
    assert input[6..10] == "<!--";
    assert IsCommentStart(input, 6);
    assert input[6..] == "<!-->" && input[6..][2..5] == "-->";
    assert input[6..][0..3][0] == '<' && input[6..][1..4][0] == '!';
    assert !OccursAt(input[6..], "-->", 0) && !OccursAt(input[6..], "-->", 1);
    FindIsFirst(input[6..], "-->", 2);
    assert CommentStep(input, t) == Failure(SliceOutOfRange);
    assert LexStep(input, t) == Failure(SliceOutOfRange);
  }
}
