/** The search grammar: splitting a query into tokens, quoting terms, and sorting
    tokens into filters and free text. */
module SearchQuery {
  import opened Basics

  const QUOTE := '"'

  function Kept(token: string): seq<string> { if token == "" then [] else [token] }

  /** What is left to tokenize, the token being read, and whether inside quotes. */
  function Tokens(s: string, current: string, inQuotes: bool): seq<string>
    decreases |s|
  {
    if s == [] then Kept(current)
    else if s[0] == QUOTE && inQuotes && |s| > 1 && s[1] == QUOTE then Tokens(s[2..], current + [QUOTE], true)
    else if s[0] == QUOTE then Tokens(s[1..], current, !inQuotes)
    else if IsWhitespace(s[0]) && !inQuotes then Kept(current) + Tokens(s[1..], "", false)
    else Tokens(s[1..], current + [s[0]], inQuotes)
  }

  method Tokenize(input: string) returns (tokens: seq<string>)
    ensures tokens == Tokens(input, "", false)
  {
    tokens := [];
    var current: string := "";
    var inQuotes := false;
    var i := 0;
    while i < |input|
      invariant 0 <= i <= |input|
      invariant tokens + Tokens(input[i..], current, inQuotes) == Tokens(input, "", false)
      decreases |input| - i
    {
      var c := input[i];
      assert input[i..][1..] == input[i + 1..];
      ConcatAssoc(tokens, Kept(current), Tokens(input[i + 1..], "", false));
      if c == QUOTE && inQuotes && i + 1 < |input| && input[i + 1] == QUOTE {
        assert input[i..][2..] == input[i + 2..];
        current := current + [QUOTE];
        i := i + 2;
      } else {
        if c == QUOTE {
          inQuotes := !inQuotes;
        } else if IsWhitespace(c) && !inQuotes {
          if current != "" {
            tokens := tokens + [current];
            current := "";
          }
        } else {
          current := current + [c];
        }
        i := i + 1;
      }
    }
    if current != "" {
      tokens := tokens + [current];
    }
  }

  function Doubled(term: string): string {
    if term == [] then []
    else (if term[0] == QUOTE then [QUOTE, QUOTE] else [term[0]]) + Doubled(term[1..])
  }

  /** `fts_quote`. */
  function Quoted(term: string): string { [QUOTE] + (Doubled(term) + [QUOTE]) }

  // ----- the parsed query -----

  datatype Query = Query(text: seq<string>, from: seq<string>, to: seq<string>, subject: seq<string>, body: seq<string>,
                         since: Option<string>, before: Option<string>, isUnread: bool, hasAttachment: bool)

  const NO_QUERY := Query([], [], [], [], [], None, None, false, false)

  /** The token begins with `prefix` and goes on. */
  predicate Follows(token: string, prefix: string) { |token| > |prefix| && token[..|prefix|] == prefix }

  function NonEmptySuffix(token: string, prefix: string): Option<string> {
    if Follows(token, prefix) then Some(token[|prefix|..]) else None
  }

  function Read(q: Query, token: string): Query {
    if Follows(token, "from:") then q.(from := q.from + [token[5..]])
    else if Follows(token, "to:") then q.(to := q.to + [token[3..]])
    else if Follows(token, "subject:") then q.(subject := q.subject + [token[8..]])
    else if Follows(token, "body:") then q.(body := q.body + [token[5..]])
    else if Follows(token, "since:") then q.(since := Some(token[6..]))
    else if Follows(token, "before:") then q.(before := Some(token[7..]))
    else if token == "is:unread" then q.(isUnread := true)
    else if token == "has:attachment" then q.(hasAttachment := true)
    else if token != "" then q.(text := q.text + [token])
    else q
  }

  function ReadAll(tokens: seq<string>): Query {
    if tokens == [] then NO_QUERY else Read(ReadAll(tokens[..|tokens| - 1]), tokens[|tokens| - 1])
  }

  function Parse(input: string): Query { ReadAll(Tokens(input, "", false)) }

  method ParseQuery(input: string) returns (q: Query)
    ensures q == Parse(input)
  {
    q := NO_QUERY;
    var tokens := Tokenize(input);
    for i := 0 to |tokens|
      invariant q == ReadAll(tokens[..i])
    {
      assert tokens[..i + 1][..i] == tokens[..i];
      var token := tokens[i];
      var from, to := NonEmptySuffix(token, "from:"), NonEmptySuffix(token, "to:");
      var subject, body := NonEmptySuffix(token, "subject:"), NonEmptySuffix(token, "body:");
      var since, before := NonEmptySuffix(token, "since:"), NonEmptySuffix(token, "before:");
      if from.Some? {
        q := q.(from := q.from + [from.value]);
      } else if to.Some? {
        q := q.(to := q.to + [to.value]);
      } else if subject.Some? {
        q := q.(subject := q.subject + [subject.value]);
      } else if body.Some? {
        q := q.(body := q.body + [body.value]);
      } else if since.Some? {
        q := q.(since := since);
      } else if before.Some? {
        q := q.(before := before);
      } else if token == "is:unread" {
        q := q.(isUnread := true);
      } else if token == "has:attachment" {
        q := q.(hasAttachment := true);
      } else if token != "" {
        q := q.(text := q.text + [token]);
      }
    }
    assert tokens[..|tokens|] == tokens;
  }

  // ----- writing a query -----

  datatype Field = AnyText | From | To | Subject | Body | Since | Before | IsUnread | HasAttachment

  /** A term under a field, written between quotes or bare. */
  datatype Item = Item(field: Field, term: string, quoted: bool)

  function Prefix(field: Field): string {
    match field
    case AnyText => ""
    case From => "from:"
    case To => "to:"
    case Subject => "subject:"
    case Body => "body:"
    case Since => "since:"
    case Before => "before:"
    case IsUnread => "is:unread"
    case HasAttachment => "has:attachment"
  }

  function Spelled(item: Item): string { if item.quoted then Quoted(item.term) else item.term }

  /** The field takes the term: the two flags take none, and the others one that is not empty;
      free text is not a word of the grammar, and a bare term holds no quote and no blank. */
  ghost predicate Fits(item: Item) {
    && (item.field.IsUnread? || item.field.HasAttachment? <==> item.term == "")
    && (item.field.AnyText? ==> Plain(item.term))
    && (!item.quoted ==> Unquoted(item.term))
  }

  function Token(item: Item): string { Prefix(item.field) + item.term }

  function TokensOf(items: seq<Item>): seq<string> {
    if items == [] then [] else TokensOf(items[..|items| - 1]) + [Token(items[|items| - 1])]
  }

  /** Each item's field and term, then the whitespace after it. */
  function Written(items: seq<Item>, gaps: seq<string>): string
    requires |items| == |gaps|
  {
    if items == [] then ""
    else Prefix(items[0].field) + (Spelled(items[0]) + (gaps[0] + Written(items[1..], gaps[1..])))
  }

  /** Whitespace after each item; the last may go without. */
  ghost predicate Separate(gaps: seq<string>) {
    forall i :: 0 <= i < |gaps| ==> Blank(gaps[i]) && (i < |gaps| - 1 ==> gaps[i] != "")
  }

  /** Not one of the grammar's own words, which quotes do not protect. */
  predicate Plain(term: string) {
    && !Follows(term, "from:") && !Follows(term, "to:") && !Follows(term, "subject:") && !Follows(term, "body:")
    && !Follows(term, "since:") && !Follows(term, "before:") && term != "is:unread" && term != "has:attachment"
  }

  function TermsOf(items: seq<Item>, field: Field): seq<string> {
    if items == [] then []
    else
      var last := items[|items| - 1];
      TermsOf(items[..|items| - 1], field) + if last.field == field then [last.term] else []
  }

  function LastOf(terms: seq<string>): Option<string> { if terms == [] then None else Some(terms[|terms| - 1]) }

  /** What the items ask for: each field has exactly its terms, in order; of the dates
      the last counts; and a flag is set when it was mentioned. */
  function Asked(items: seq<Item>): Query {
    Query(TermsOf(items, AnyText), TermsOf(items, From), TermsOf(items, To), TermsOf(items, Subject),
          TermsOf(items, Body), LastOf(TermsOf(items, Since)), LastOf(TermsOf(items, Before)),
          TermsOf(items, IsUnread) != [], TermsOf(items, HasAttachment) != [])
  }

  // ----- tokenizing undoes quoting -----

  lemma {:induction false} ReadDoubled(term: string, rest: string, current: string)
    requires rest == [] || rest[0] != QUOTE
    ensures Tokens(Doubled(term) + ([QUOTE] + rest), current, true) == Tokens(rest, current + term, false)
  {
    var s := Doubled(term) + ([QUOTE] + rest);
    if term == [] {
      assert s == [QUOTE] + rest && current + term == current;
      assert s[1..] == rest;
    } else {
      var tail := Doubled(term[1..]) + ([QUOTE] + rest);
      ReadDoubled(term[1..], rest, current + [term[0]]);
      assert current + [term[0]] + term[1..] == current + term;
      if term[0] == QUOTE {
        assert s == [QUOTE, QUOTE] + tail;
        assert s[2..] == tail;
      } else {
        assert s == [term[0]] + tail;
        assert s[1..] == tail;
      }
    }
  }

  lemma ReadQuoted(term: string, rest: string, current: string)
    requires rest == [] || rest[0] != QUOTE
    ensures Tokens(Quoted(term) + rest, current, false) == Tokens(rest, current + term, false)
  {
    var s := Quoted(term) + rest;
    assert s == [QUOTE] + (Doubled(term) + ([QUOTE] + rest));
    assert s[1..] == Doubled(term) + ([QUOTE] + rest);
    ReadDoubled(term, rest, current);
  }

  predicate Unquoted(s: string) { forall i :: 0 <= i < |s| ==> s[i] != QUOTE && !IsWhitespace(s[i]) }

  lemma {:induction false} ReadPlainly(word: string, rest: string, current: string)
    requires Unquoted(word)
    ensures Tokens(word + rest, current, false) == Tokens(rest, current + word, false)
  {
    if word == [] {
      assert word + rest == rest && current + word == current;
    } else {
      ReadPlainly(word[1..], rest, current + [word[0]]);
      assert (word + rest)[1..] == word[1..] + rest;
      assert current + [word[0]] + word[1..] == current + word;
    }
  }

  lemma {:induction false} ReadGap(gap: string, rest: string, current: string)
    requires Blank(gap) && gap != ""
    ensures Tokens(gap + rest, current, false) == Kept(current) + Tokens(rest, "", false)
  {
    assert (gap + rest)[1..] == gap[1..] + rest;
    if |gap| == 1 {
      assert gap[1..] + rest == rest;
    } else {
      ReadGap(gap[1..], rest, "");
    }
  }

  lemma ReadSpelled(item: Item, rest: string, current: string)
    requires (rest == [] || rest[0] != QUOTE) && (!item.quoted ==> Unquoted(item.term))
    ensures Tokens(Spelled(item) + rest, current, false) == Tokens(rest, current + item.term, false)
  {
    if item.quoted {
      ReadQuoted(item.term, rest, current);
    } else {
      ReadPlainly(item.term, rest, current);
    }
  }

  lemma PrefixesAreUnquoted(field: Field)
    ensures Unquoted(Prefix(field))
  {
  }

  lemma {:induction false} TokensOfFront(items: seq<Item>)
    requires items != []
    ensures TokensOf(items) == [Token(items[0])] + TokensOf(items[1..])
  {
    if |items| > 1 {
      var n := |items| - 1;
      TokensOfFront(items[..n]);
      assert items[1..][..n - 1] == items[..n][1..];
    } else {
      assert TokensOf(items[..0]) == [] && TokensOf(items[1..]) == [];
    }
  }

  lemma WrittenDoesNotStartWithQuote(gap: string, rest: string)
    requires Blank(gap) && (gap == "" ==> rest == "")
    ensures gap + rest == [] || (gap + rest)[0] != QUOTE
  {
  }

  /** For every list of items with non-empty tokens, tokenizing what is written
      gives back each field's prefix with its term, quotes and spaces in it intact. */
  lemma {:induction false} TokenizeUndoesQuoting(items: seq<Item>, gaps: seq<string>)
    requires |items| == |gaps| && Separate(gaps)
    requires forall i :: 0 <= i < |items| ==> Token(items[i]) != "" && (!items[i].quoted ==> Unquoted(items[i].term))
    ensures Tokens(Written(items, gaps), "", false) == TokensOf(items)
    decreases |items|
  {
    if items != [] {
      var prefix, term, gap, rest := Prefix(items[0].field), items[0].term, gaps[0], Written(items[1..], gaps[1..]);
      assert |items| > 1 ==> gaps[0] != "";
      TokenizeUndoesQuoting(items[1..], gaps[1..]);
      PrefixesAreUnquoted(items[0].field);
      ReadPlainly(prefix, Spelled(items[0]) + (gap + rest), "");
      assert "" + prefix == prefix;
      WrittenDoesNotStartWithQuote(gap, rest);
      ReadSpelled(items[0], gap + rest, prefix);
      TokensOfFront(items);
      if gap != "" {
        ReadGap(gap, rest, prefix + term);
      } else {
        assert gap + rest == [] && items[1..] == [];
      }
    }
  }

  /** Bare quoted terms, with whitespace between, come back exactly when none is empty. */
  lemma QuotedTermsComeBackIff(terms: seq<string>, gaps: seq<string>)
    requires |terms| == |gaps| && Separate(gaps)
    ensures var items := seq(|terms|, i requires 0 <= i < |terms| => Item(AnyText, terms[i], true));
            Tokens(Written(items, gaps), "", false) == terms <==> forall i :: 0 <= i < |terms| ==> terms[i] != ""
  {
    var items := seq(|terms|, i requires 0 <= i < |terms| => Item(AnyText, terms[i], true));
    TokensAreNotEmpty(Written(items, gaps), "", false);
    if forall i :: 0 <= i < |terms| ==> terms[i] != "" {
      TokenizeUndoesQuoting(items, gaps);
      BareTokens(items, terms);
    }
  }

  lemma {:induction false} BareTokens(items: seq<Item>, terms: seq<string>)
    requires |items| == |terms| && forall i :: 0 <= i < |items| ==> items[i] == Item(AnyText, terms[i], true)
    ensures TokensOf(items) == terms
  {
    if items != [] {
      var n := |items| - 1;
      BareTokens(items[..n], terms[..n]);
      assert "" + terms[n] == terms[n];
    }
  }

  lemma {:induction false} TokensAreNotEmpty(s: string, current: string, inQuotes: bool)
    ensures forall i :: 0 <= i < |Tokens(s, current, inQuotes)| ==> Tokens(s, current, inQuotes)[i] != ""
    decreases |s|
  {
    if s != [] {
      if s[0] == QUOTE && inQuotes && |s| > 1 && s[1] == QUOTE {
        TokensAreNotEmpty(s[2..], current + [QUOTE], true);
      } else if s[0] == QUOTE {
        TokensAreNotEmpty(s[1..], current, !inQuotes);
      } else if IsWhitespace(s[0]) && !inQuotes {
        TokensAreNotEmpty(s[1..], "", false);
      } else {
        TokensAreNotEmpty(s[1..], current + [s[0]], inQuotes);
      }
    }
  }

  // ----- parsing fills the fields -----

  lemma FromToken(term: string)
    requires term != ""
    ensures Follows("from:" + term, "from:") && ("from:" + term)[5..] == term
  {
  }

  lemma ToToken(term: string)
    requires term != ""
    ensures var t := "to:" + term; Follows(t, "to:") && t[3..] == term && !Follows(t, "from:")
  {
    assert ("to:" + term)[0] == 't' && "from:"[0] == 'f';
    assert |"to:" + term| > 5 ==> ("to:" + term)[..5][0] == 't';
  }

  lemma SubjectToken(term: string)
    requires term != ""
    ensures var t := "subject:" + term;
            Follows(t, "subject:") && t[8..] == term && !Follows(t, "from:") && !Follows(t, "to:")
  {
    var t := "subject:" + term;
    assert t[..5][0] == 's' && t[..3][0] == 's' && "from:"[0] == 'f' && "to:"[0] == 't';
  }

  lemma BodyToken(term: string)
    requires term != ""
    ensures var t := "body:" + term;
            && Follows(t, "body:") && t[5..] == term
            && !Follows(t, "from:") && !Follows(t, "to:") && !Follows(t, "subject:")
  {
    var t := "body:" + term;
    assert t[..5][0] == 'b' && t[..3][0] == 'b' && "from:"[0] == 'f' && "to:"[0] == 't' && "subject:"[0] == 's';
    assert |t| > 8 ==> t[..8][0] == 'b';
  }

  lemma SinceToken(term: string)
    requires term != ""
    ensures var t := "since:" + term;
            && Follows(t, "since:") && t[6..] == term
            && !Follows(t, "from:") && !Follows(t, "to:") && !Follows(t, "subject:") && !Follows(t, "body:")
  {
    var t := "since:" + term;
    assert t[..5][0] == 's' && t[..3][0] == 's' && "from:"[0] == 'f' && "to:"[0] == 't' && "body:"[0] == 'b';
    assert |t| > 8 ==> t[..8][1] == 'i' && "subject:"[1] == 'u';
  }

  lemma BeforeToken(term: string)
    requires term != ""
    ensures var t := "before:" + term;
            && Follows(t, "before:") && t[7..] == term
            && !Follows(t, "from:") && !Follows(t, "to:") && !Follows(t, "subject:") && !Follows(t, "body:")
            && !Follows(t, "since:")
  {
    var t := "before:" + term;
    assert t[..5][0] == 'b' && t[..3][0] == 'b' && t[..6][0] == 'b' && t[..5][1] == 'e' && "body:"[1] == 'o';
    assert "from:"[0] == 'f' && "to:"[0] == 't' && "subject:"[0] == 's' && "since:"[0] == 's';
    assert |t| > 8 ==> t[..8][0] == 'b';
  }

  lemma FlagTokens()
    ensures !Dated("is:unread") && !Dated("has:attachment")
  {
    var u, a := "is:unread", "has:attachment";
    assert u[..5][0] == 'i' && u[..3][0] == 'i' && u[..8][0] == 'i' && u[..6][0] == 'i' && u[..7][0] == 'i';
    assert a[..5][0] == 'h' && a[..3][0] == 'h' && a[..8][0] == 'h' && a[..6][0] == 'h' && a[..7][0] == 'h';
    assert "from:"[0] == 'f' && "to:"[0] == 't' && "subject:"[0] == 's' && "body:"[0] == 'b';
    assert "since:"[0] == 's' && "before:"[0] == 'b';
    assert u[0] != a[0];
  }

  /** The token begins with one of the six prefixes and goes on. */
  predicate Dated(token: string) {
    || Follows(token, "from:") || Follows(token, "to:") || Follows(token, "subject:") || Follows(token, "body:")
    || Follows(token, "since:") || Follows(token, "before:")
  }

  /** The query with one more item read. */
  function With(q: Query, item: Item): Query {
    match item.field
    case AnyText => q.(text := q.text + [item.term])
    case From => q.(from := q.from + [item.term])
    case To => q.(to := q.to + [item.term])
    case Subject => q.(subject := q.subject + [item.term])
    case Body => q.(body := q.body + [item.term])
    case Since => q.(since := Some(item.term))
    case Before => q.(before := Some(item.term))
    case IsUnread => q.(isUnread := true)
    case HasAttachment => q.(hasAttachment := true)
  }

  lemma TermsOneMore(items: seq<Item>, last: Item, field: Field)
    ensures TermsOf(items + [last], field) == TermsOf(items, field) + if last.field == field then [last.term] else []
  {
    assert (items + [last])[..|items|] == items;
  }

  lemma AskedTextsOneMore(items: seq<Item>, last: Item)
    ensures var (q, r) := (With(Asked(items), last), Asked(items + [last]));
            r.text == q.text && r.from == q.from && r.to == q.to && r.subject == q.subject && r.body == q.body
  {
    TermsOneMore(items, last, AnyText);
    TermsOneMore(items, last, From);
    TermsOneMore(items, last, To);
    TermsOneMore(items, last, Subject);
    TermsOneMore(items, last, Body);
  }

  lemma AskedFiltersOneMore(items: seq<Item>, last: Item)
    ensures var (q, r) := (With(Asked(items), last), Asked(items + [last]));
            && r.since == q.since && r.before == q.before
            && r.isUnread == q.isUnread && r.hasAttachment == q.hasAttachment
  {
    TermsOneMore(items, last, Since);
    TermsOneMore(items, last, Before);
    TermsOneMore(items, last, IsUnread);
    TermsOneMore(items, last, HasAttachment);
  }

  lemma ReadTakesItem(q: Query, item: Item)
    requires Fits(item)
    ensures Read(q, Token(item)) == With(q, item)
  {
    match item.field
    case AnyText => assert "" + item.term == item.term;
    case From => FromToken(item.term);
    case To => ToToken(item.term);
    case Subject => SubjectToken(item.term);
    case Body => BodyToken(item.term);
    case Since => SinceToken(item.term);
    case Before => BeforeToken(item.term);
    case IsUnread =>
      FlagTokens();
      assert Token(item) == "is:unread";
    case HasAttachment =>
      FlagTokens();
      assert Token(item) == "has:attachment" && Token(item)[0] != "is:unread"[0];
  }

  lemma ReadAllOneMore(tokens: seq<string>, token: string)
    ensures ReadAll(tokens + [token]) == Read(ReadAll(tokens), token)
  {
    assert (tokens + [token])[..|tokens|] == tokens;
  }

  function WithAll(items: seq<Item>): Query {
    if items == [] then NO_QUERY else With(WithAll(items[..|items| - 1]), items[|items| - 1])
  }

  lemma {:induction false} ReadAllTakesItems(items: seq<Item>)
    requires forall i :: 0 <= i < |items| ==> Fits(items[i])
    ensures ReadAll(TokensOf(items)) == WithAll(items)
  {
    if items != [] {
      var n := |items| - 1;
      ReadAllTakesItems(items[..n]);
      ReadTakesItem(WithAll(items[..n]), items[n]);
      ReadAllOneMore(TokensOf(items[..n]), Token(items[n]));
    }
  }

  lemma OneMoreItem(items: seq<Item>, last: Item)
    requires WithAll(items) == Asked(items)
    ensures WithAll(items + [last]) == Asked(items + [last])
  {
    assert (items + [last])[..|items|] == items;
    AskedTextsOneMore(items, last);
    AskedFiltersOneMore(items, last);
  }

  lemma {:induction false} AskedIsWithAll(items: seq<Item>)
    ensures WithAll(items) == Asked(items)
  {
    if items != [] {
      var n := |items| - 1;
      AskedIsWithAll(items[..n]);
      OneMoreItem(items[..n], items[n]);
      assert items == items[..n] + [items[n]];
    }
  }

  /** Parsing terms, each under its field, quoted or bare, fills each field with exactly
      its terms in order and leaves everything else unset. */
  lemma ParseFillsTheFields(items: seq<Item>, gaps: seq<string>)
    requires |items| == |gaps| && Separate(gaps)
    requires forall i :: 0 <= i < |items| ==> Fits(items[i])
    ensures Parse(Written(items, gaps)) == Asked(items)
  {
    forall i | 0 <= i < |items| ensures Token(items[i]) != "" {
      assert Fits(items[i]);
    }
    TokenizeUndoesQuoting(items, gaps);
    ReadAllTakesItems(items);
    AskedIsWithAll(items);
  }

  /** A quoted term alone is free text exactly when it is not empty and not a
      word of the grammar: quoting does not turn the grammar off. */
  lemma QuotedTermIsTextIff(term: string)
    ensures Parse(Quoted(term)) == NO_QUERY.(text := [term]) <==> term != "" && Plain(term)
  {
    ReadQuoted(term, [], "");
    assert Quoted(term) + [] == Quoted(term) && "" + term == term;
    var tokens := Tokens(Quoted(term), "", false);
    assert tokens == Kept(term);
    if term != "" {
      assert tokens[..0] == [] && ReadAll(tokens[..0]) == NO_QUERY;
      assert Parse(Quoted(term)) == Read(NO_QUERY, term);
    }
  }
}
