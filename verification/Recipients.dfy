/** Recipient fields: comma-separated addresses, the one the caret is in, and
    completing it. */
module Recipients {
  import opened Basics

  const COMMA := ','

  // ----- splitting a field -----

  /** `str::split(',')`; `word` is the piece being read. */
  function Pieces(s: string, word: string): (r: seq<string>)
    ensures r != []
  {
    if s == [] then [word]
    else if s[0] == COMMA then [word] + Pieces(s[1..], "")
    else Pieces(s[1..], word + [s[0]])
  }

  function Trimmed(pieces: seq<string>): seq<string> {
    if pieces == [] then []
    else (if Trim(pieces[0]) == "" then [] else [Trim(pieces[0])]) + Trimmed(pieces[1..])
  }

  function SplitAddresses(field: string): seq<string> { Trimmed(Pieces(field, "")) }

  // ----- the token the caret is in -----

  /** One past the last comma before `cursor`, or the beginning. */
  function TokenStart(chars: string, cursor: nat): (start: nat)
    requires cursor <= |chars|
    ensures start <= cursor
    ensures start > 0 ==> chars[start - 1] == COMMA
    ensures forall i :: start <= i < cursor ==> chars[i] != COMMA
  {
    if cursor == 0 then 0 else if chars[cursor - 1] == COMMA then cursor else TokenStart(chars, cursor - 1)
  }

  /** The first comma from `cursor` on, or the end. */
  function TokenEnd(chars: string, cursor: nat): (end: nat)
    requires cursor <= |chars|
    ensures cursor <= end <= |chars|
    ensures end < |chars| ==> chars[end] == COMMA
    ensures forall i :: cursor <= i < end ==> chars[i] != COMMA
    decreases |chars| - cursor
  {
    if cursor == |chars| || chars[cursor] == COMMA then cursor else TokenEnd(chars, cursor + 1)
  }

  /** Where the token around the caret starts and ends: between the commas, or the ends
      of the text, that are nearest. A caret beyond the text is at its end. */
  function TokenBounds(chars: string, cursor: nat): (bounds: (nat, nat))
    ensures bounds.0 <= bounds.1 <= |chars|
    ensures if cursor <= |chars| then bounds.0 <= cursor <= bounds.1 else bounds.1 == |chars|
    ensures bounds.0 > 0 ==> chars[bounds.0 - 1] == COMMA
    ensures bounds.1 < |chars| ==> chars[bounds.1] == COMMA
    ensures forall i :: bounds.0 <= i < bounds.1 ==> chars[i] != COMMA
  {
    var at := if cursor < |chars| then cursor else |chars|;
    (TokenStart(chars, at), TokenEnd(chars, at))
  }

  method SkipBlanks(chars: string, from: nat, end: nat) returns (start: nat)
    requires from <= end <= |chars|
    ensures from <= start <= end && chars[start..end] == TrimStart(chars[from..end])
  {
    start := from;
    while start < end && IsWhitespace(chars[start])
      invariant from <= start <= end
      invariant TrimStart(chars[start..end]) == TrimStart(chars[from..end])
    {
      assert chars[start..end][1..] == chars[start + 1..end];
      start := start + 1;
    }
  }

  method DropBlanks(chars: string, start: nat, from: nat) returns (end: nat)
    requires start <= from <= |chars|
    ensures start <= end <= from && chars[start..end] == TrimEnd(chars[start..from])
  {
    end := from;
    while end > start && IsWhitespace(chars[end - 1])
      invariant start <= end <= from
      invariant TrimEnd(chars[start..end]) == TrimEnd(chars[start..from])
    {
      assert chars[start..end][..end - start - 1] == chars[start..end - 1];
      end := end - 1;
    }
  }

  /** The token around the caret, trimmed from both ends. */
  method RecipientToken(text: string, cursor: nat) returns (token: string)
    ensures token == Trim(Token(text, cursor))
  {
    var (rawStart, rawEnd) := TokenBounds(text, cursor);
    var start := SkipBlanks(text, rawStart, rawEnd);
    var end := DropBlanks(text, start, rawEnd);
    token := text[start..end];
  }

  /** What stands before the caret's token, with the comma that ends it. */
  function Before(text: string, cursor: nat): string { text[..TokenBounds(text, cursor).0] }

  function Token(text: string, cursor: nat): string {
    text[TokenBounds(text, cursor).0..TokenBounds(text, cursor).1]
  }

  /** What follows the comma after the caret's token. */
  function After(text: string, cursor: nat): string {
    var end := TokenBounds(text, cursor).1;
    if end < |text| then text[end + 1..] else ""
  }

  method CompleteRecipient(text: string, cursor: nat, insertion: string) returns (out: string, caret: nat)
    ensures out == Completed(text, cursor, insertion)
    ensures caret == CaretAfter(text, cursor, insertion)
  {
    var (start, end) := TokenBounds(text, cursor);
    out := text[..start];
    if start > 0 {
      out := out + [' '];
    }
    out := out + insertion;
    out := out + ", ";
    if end < |text| {
      out := out + TrimStart(text[end + 1..]);
    }
    caret := start + (if start > 0 then 1 else 0) + |insertion| + 2;
    CompletedIs(text, cursor, insertion, out);
  }

  function Lead(text: string, cursor: nat): string {
    Before(text, cursor) + if Before(text, cursor) == "" then "" else " "
  }

  function Completed(text: string, cursor: nat, insertion: string): string {
    Lead(text, cursor) + (insertion + (", " + TrimStart(After(text, cursor))))
  }

  function CaretAfter(text: string, cursor: nat, insertion: string): nat { |Lead(text, cursor)| + |insertion| + 2 }

  lemma CompletedIs(text: string, cursor: nat, insertion: string, out: string)
    requires out == Lead(text, cursor) + insertion + ", " + TrimStart(After(text, cursor))
          || (out == Lead(text, cursor) + insertion + ", " && After(text, cursor) == "")
    ensures out == Completed(text, cursor, insertion)
  {
    if After(text, cursor) == "" {
      assert ", " + TrimStart("") == ", ";
    }
  }

  // ----- splitting around commas and spaces -----

  lemma {:induction false} PiecesCut(a: string, b: string, word: string)
    ensures Pieces(a + ([COMMA] + b), word) == Pieces(a, word) + Pieces(b, "")
  {
    if a == [] {
      assert a + ([COMMA] + b) == [COMMA] + b && ([COMMA] + b)[1..] == b;
    } else {
      assert (a + ([COMMA] + b))[1..] == a[1..] + ([COMMA] + b);
      PiecesCut(a[1..], b, if a[0] == COMMA then "" else word + [a[0]]);
    }
  }

  lemma {:induction false} TrimmedAppend(a: seq<string>, b: seq<string>)
    ensures Trimmed(a + b) == Trimmed(a) + Trimmed(b)
  {
    if a == [] {
      assert a + b == b;
    } else {
      assert (a + b)[1..] == a[1..] + b;
      TrimmedAppend(a[1..], b);
    }
  }

  /** A comma splits a field into the addresses on either side. */
  lemma SplitCut(a: string, b: string)
    ensures SplitAddresses(a + ([COMMA] + b)) == SplitAddresses(a) + SplitAddresses(b)
  {
    PiecesCut(a, b, "");
    TrimmedAppend(Pieces(a, ""), Pieces(b, ""));
  }

  lemma {:induction false} PiecesWord(s: string, word: string)
    ensures Pieces(s, word) == [word + Pieces(s, "")[0]] + Pieces(s, "")[1..]
    decreases |s|
  {
    if s == [] {
      assert word + "" == word;
    } else if s[0] == COMMA {
      assert word + "" == word;
    } else {
      PiecesWord(s[1..], word + [s[0]]);
      PiecesWord(s[1..], "" + [s[0]]);
      var first := Pieces(s[1..], "")[0];
      assert word + [s[0]] + first == word + (([] + [s[0]]) + first);
    }
  }

  lemma {:induction false} TrimStartSkips(blank: string, s: string)
    requires Blank(blank)
    ensures TrimStart(blank + s) == TrimStart(s)
  {
    if blank == [] {
      assert blank + s == s;
    } else {
      assert (blank + s)[1..] == blank[1..] + s;
      TrimStartSkips(blank[1..], s);
    }
  }

  /** Reading a blank adds it to the piece. */
  lemma {:induction false} PiecesSkip(blank: string, s: string, word: string)
    requires Blank(blank)
    ensures Pieces(blank + s, word) == Pieces(s, word + blank)
  {
    if blank == [] {
      assert blank + s == s && word + blank == word;
    } else {
      PiecesSkip(blank[1..], s, word + [blank[0]]);
      assert (blank + s)[1..] == blank[1..] + s;
      assert word + [blank[0]] + blank[1..] == word + blank;
    }
  }

  /** Blanks in front of a field change no address. */
  lemma SplitSkipsBlanks(blank: string, s: string)
    requires Blank(blank)
    ensures SplitAddresses(blank + s) == SplitAddresses(s)
  {
    PiecesSkip(blank, s, "");
    assert "" + blank == blank;
    PiecesWord(s, blank);
    var pieces := Pieces(s, "");
    TrimStartSkips(blank, pieces[0]);
    assert Pieces(blank + s, "")[0] == blank + pieces[0] && Pieces(blank + s, "")[1..] == pieces[1..];
  }

  lemma {:induction false} TrimStartCuts(s: string)
    ensures exists blank :: Blank(blank) && s == blank + TrimStart(s)
  {
    if s != [] && IsWhitespace(s[0]) {
      TrimStartCuts(s[1..]);
      var blank :| Blank(blank) && s[1..] == blank + TrimStart(s[1..]);
      assert Blank([s[0]] + blank) && s == ([s[0]] + blank) + TrimStart(s);
    } else {
      assert Blank("") && s == "" + TrimStart(s);
    }
  }

  lemma SplitIgnoresTrimStart(s: string)
    ensures SplitAddresses(TrimStart(s)) == SplitAddresses(s)
  {
    TrimStartCuts(s);
    var blank :| Blank(blank) && s == blank + TrimStart(s);
    SplitSkipsBlanks(blank, TrimStart(s));
  }

  lemma SplitOfNothing()
    ensures SplitAddresses("") == []
  {
    assert Pieces("", "") == [""];
    assert Trim("") == "";
  }

  // ----- completing a recipient -----

  lemma CutAt(text: string, start: nat, end: nat)
    requires start <= end < |text|
    ensures text[start..] == text[start..end] + ([text[end]] + text[end + 1..])
  {
  }

  lemma FromToken(text: string, cursor: nat)
    ensures var (start, end) := TokenBounds(text, cursor);
            if end < |text| then text[start..] == Token(text, cursor) + ([COMMA] + After(text, cursor))
            else text[start..] == Token(text, cursor) && After(text, cursor) == ""
  {
    var (start, end) := TokenBounds(text, cursor);
    if end < |text| {
      CutAt(text, start, end);
    }
  }

  lemma SplitLast(s: string)
    ensures SplitAddresses(s) + SplitAddresses("") == SplitAddresses(s)
  {
    SplitOfNothing();
  }

  lemma SplitFromToken(text: string, cursor: nat)
    ensures SplitAddresses(text[TokenBounds(text, cursor).0..]) ==
              SplitAddresses(Token(text, cursor)) + SplitAddresses(After(text, cursor))
  {
    FromToken(text, cursor);
    SplitCut(Token(text, cursor), After(text, cursor));
    SplitLast(Token(text, cursor));
  }

  lemma BeforeToken(text: string, cursor: nat)
    ensures text == Before(text, cursor) + text[TokenBounds(text, cursor).0..]
    ensures var before := Before(text, cursor); before == "" || before[|before| - 1] == COMMA
  {
  }

  /** The field's addresses are those before the caret's token, in it, and after it. */
  lemma FieldIsThreeParts(text: string, cursor: nat)
    ensures SplitAddresses(text) ==
              SplitAddresses(Before(text, cursor))
              + (SplitAddresses(Token(text, cursor)) + SplitAddresses(After(text, cursor)))
  {
    BeforeToken(text, cursor);
    SplitBefore(Before(text, cursor), text[TokenBounds(text, cursor).0..]);
    SplitFromToken(text, cursor);
  }

  /** Text that is empty or ends with a comma keeps its addresses apart from what follows. */
  lemma SplitBefore(before: string, rest: string)
    requires before == "" || before[|before| - 1] == COMMA
    ensures SplitAddresses(before + rest) == SplitAddresses(before) + SplitAddresses(rest)
  {
    SplitOfNothing();
    if before == "" {
      assert before + rest == rest;
    } else {
      var front := before[..|before| - 1];
      SplitCut(front, rest);
      SplitCut(front, "");
      assert before == front + ([COMMA] + "");
      assert before + rest == front + ([COMMA] + rest);
    }
  }

  /** The blank written between the text before and the insertion. */
  function Gap(text: string, cursor: nat): string { if Before(text, cursor) == "" then "" else " " }

  lemma CompletedParts(text: string, cursor: nat, insertion: string)
    ensures var tail := " " + TrimStart(After(text, cursor));
            Completed(text, cursor, insertion) ==
              Before(text, cursor) + (Gap(text, cursor) + (insertion + ([COMMA] + tail)))
  {
    var tail := " " + TrimStart(After(text, cursor));
    assert ", " + TrimStart(After(text, cursor)) == [COMMA] + tail;
  }

  /** Completing replaces the caret's token by the insertion's own addresses and
      changes no other, whatever the insertion. */
  lemma CompletingReplacesTheToken(text: string, cursor: nat, insertion: string)
    ensures SplitAddresses(Completed(text, cursor, insertion)) ==
              SplitAddresses(Before(text, cursor)) + (SplitAddresses(insertion) + SplitAddresses(After(text, cursor)))
  {
    var before, gap, after := Before(text, cursor), Gap(text, cursor), After(text, cursor);
    var tail := " " + TrimStart(after);
    var whole := insertion + ([COMMA] + tail);
    CompletedParts(text, cursor, insertion);
    SplitBefore(before, gap + whole);
    SplitSkipsBlanks(gap, whole);
    SplitCut(insertion, tail);
    SplitSkipsBlanks(" ", TrimStart(after));
    SplitIgnoresTrimStart(after);
  }

  predicate HasComma(s: string) { exists i :: 0 <= i < |s| && s[i] == COMMA }

  lemma {:induction false} NoCommaOnePiece(s: string, word: string)
    requires !HasComma(s)
    ensures Pieces(s, word) == [word + s]
  {
    if s == [] {
      assert word + s == word;
    } else {
      NoCommaOnePiece(s[1..], word + [s[0]]);
      assert word + [s[0]] + s[1..] == word + s;
    }
  }

  lemma {:induction false} PiecesHaveNoComma(s: string, word: string)
    requires !HasComma(word)
    ensures forall i :: 0 <= i < |Pieces(s, word)| ==> !HasComma(Pieces(s, word)[i])
  {
    if s != [] {
      PiecesHaveNoComma(s[1..], if s[0] == COMMA then "" else word + [s[0]]);
    }
  }

  lemma {:induction false} TrimStartKeepsComma(s: string)
    ensures HasComma(TrimStart(s)) <==> HasComma(s)
  {
    if s != [] && IsWhitespace(s[0]) {
      TrimStartKeepsComma(s[1..]);
      if HasComma(s) {
        var i :| 0 <= i < |s| && s[i] == COMMA;
        assert s[1..][i - 1] == COMMA;
      }
    }
  }

  lemma {:induction false} TrimEndKeepsComma(s: string)
    ensures HasComma(TrimEnd(s)) <==> HasComma(s)
  {
    if s != [] && IsWhitespace(s[|s| - 1]) {
      TrimEndKeepsComma(s[..|s| - 1]);
      if HasComma(s) {
        var i :| 0 <= i < |s| && s[i] == COMMA;
        assert s[..|s| - 1][i] == COMMA;
      }
    }
  }

  lemma TrimKeepsComma(s: string)
    ensures HasComma(Trim(s)) <==> HasComma(s)
  {
    TrimStartKeepsComma(s);
    TrimEndKeepsComma(TrimStart(s));
  }

  lemma {:induction false} AddressesAreNotEmpty(pieces: seq<string>)
    requires forall i :: 0 <= i < |pieces| ==> !HasComma(pieces[i])
    ensures forall i :: 0 <= i < |Trimmed(pieces)| ==> Trimmed(pieces)[i] != "" && !HasComma(Trimmed(pieces)[i])
  {
    if pieces != [] {
      TrimKeepsComma(pieces[0]);
      AddressesAreNotEmpty(pieces[1..]);
    }
  }

  /** An insertion stands for itself, trimmed, exactly when it is not blank and
      has no comma. */
  lemma InsertionIsOneAddressIff(insertion: string)
    ensures SplitAddresses(insertion) == [Trim(insertion)] <==> Trim(insertion) != "" && !HasComma(insertion)
  {
    if HasComma(insertion) {
      PiecesHaveNoComma(insertion, "");
      AddressesAreNotEmpty(Pieces(insertion, ""));
      TrimKeepsComma(insertion);
      var addresses := SplitAddresses(insertion);
      assert |addresses| == 1 ==> !HasComma(addresses[0]);
    } else {
      NoCommaOnePiece(insertion, "");
      assert "" + insertion == insertion;
      assert Trimmed([insertion][1..]) == [];
    }
  }

  /** Completing with one address leaves the addresses before the caret's token,
      then the trimmed insertion, then the addresses after it. */
  lemma CompletingAddsOneAddress(text: string, cursor: nat, insertion: string)
    requires Trim(insertion) != "" && !HasComma(insertion)
    ensures SplitAddresses(Completed(text, cursor, insertion)) ==
              SplitAddresses(Before(text, cursor)) + ([Trim(insertion)] + SplitAddresses(After(text, cursor)))
  {
    CompletingReplacesTheToken(text, cursor, insertion);
    InsertionIsOneAddressIff(insertion);
  }

  /** The caret ends just past the insertion and the separator written after it,
      at the beginning of what followed. */
  lemma CaretIsPastTheSeparator(text: string, cursor: nat, insertion: string)
    ensures var out, caret := Completed(text, cursor, insertion), CaretAfter(text, cursor, insertion);
            && caret <= |out|
            && out[..caret] ==
                 Before(text, cursor) + (if Before(text, cursor) == "" then "" else " ") + insertion + ", "
            && out[caret..] == TrimStart(After(text, cursor))
            && TokenStart(out, caret) == caret - 1
  {
    var out, caret := Completed(text, cursor, insertion), CaretAfter(text, cursor, insertion);
    assert out == (Lead(text, cursor) + (insertion + ", ")) + TrimStart(After(text, cursor));
    assert Lead(text, cursor) + insertion + ", " == Lead(text, cursor) + (insertion + ", ");
    assert out[caret - 1] == ' ' && out[caret - 2] == COMMA;
  }
}
