/** Column definitions of a CREATE TABLE statement: reading identifiers, cutting the table body into
    definitions, and the proof that parsing undoes printing. */
module SqlColumns {
  import opened Options
  import opened SqlText
  import opened SqlLexer

  /* ---------- Identifiers ---------- */

  /** Index of the double quote that ends a quoted identifier, where a doubled one does not. */
  function QuoteEnd(s: string, index: nat): (r: Option<nat>)
    ensures r.Some? ==> index <= r.value < |s|
    decreases |s| - index
  {
    if index >= |s| then None
    else if s[index] != '"' then QuoteEnd(s, index + 1)
    else if index + 1 < |s| && s[index + 1] == '"' then QuoteEnd(s, index + 2)
    else Some(index)
  }

  /** The first token of a definition, quoted or not, and what follows it. */
  function ReadIdentifier(value: string): (string, string) {
    var s := LStrip(value);
    if s == "" then ("", "")
    else if s[0] == '"' then
      match QuoteEnd(s, 1)
      case None => (s, "")
      case Some(end) => (s[..end + 1], Strip(s[end + 1..]))
    else
      var n := TokenLength(s);
      (s[..n], Strip(s[n..]))
  }

  method ReadSqlIdentifier(value: string) returns (token: string, rest: string)
    ensures (token, rest) == ReadIdentifier(value)
  {
    var s := LStrip(value);
    if s == "" {
      return "", "";
    }
    if s[0] == '"' {
      var index := 1;
      while index < |s|
        invariant 1 <= index
        invariant QuoteEnd(s, index) == QuoteEnd(s, 1)
      {
        if s[index] == '"' {
          if index + 1 < |s| && s[index + 1] == '"' {
            index := index + 2;
            continue;
          }
          return s[..index + 1], Strip(s[index + 1..]);
        }
        index := index + 1;
      }
      return s, "";
    }
    var n := TokenLength(s);
    return s[..n], Strip(s[n..]);
  }

  /** `replace('""', '"')`, from left to right. */
  function Undouble(s: string): string {
    if |s| >= 2 && s[0] == '"' && s[1] == '"' then "\"" + Undouble(s[2..])
    else if s == "" then ""
    else [s[0]] + Undouble(s[1..])
  }

  function Unquote(value: string): string {
    if |value| >= 2 && value[0] == '"' && value[|value| - 1] == '"' then Undouble(value[1..|value| - 1]) else value
  }

  function Doubled(name: string): string {
    if name == "" then "" else (if name[0] == '"' then "\"\"" else [name[0]]) + Doubled(name[1..])
  }

  function Quote(name: string): string {
    "\"" + Doubled(name) + "\""
  }

  lemma {:induction false} UndoubleDoubled(name: string)
    ensures Undouble(Doubled(name)) == name
  {
    if name != "" {
      var rest := Doubled(name[1..]);
      UndoubleDoubled(name[1..]);
      if name[0] == '"' {
        assert ("\"\"" + rest)[2..] == rest;
      } else {
        assert ([name[0]] + rest)[1..] == rest;
      }
      assert name == [name[0]] + name[1..];
    }
  }

  /** Unquoting undoes quoting, for every name. */
  lemma UnquoteQuote(name: string)
    ensures Unquote(Quote(name)) == name
  {
    UndoubleDoubled(name);
    assert Quote(name)[1..|Quote(name)| - 1] == Doubled(name);
  }

  /** The end of a quoted name is found just after its doubled text. */
  lemma {:induction false} QuoteEndOfDoubled(before: string, name: string, after: string)
    requires after == "" || after[0] != '"'
    ensures QuoteEnd(before + Doubled(name) + "\"" + after, |before|) == Some(|before| + |Doubled(name)|)
    decreases |name|
  {
    var s := before + Doubled(name) + "\"" + after;
    if name != "" {
      var head := if name[0] == '"' then "\"\"" else [name[0]];
      assert Doubled(name) == head + Doubled(name[1..]);
      assert s == (before + head) + Doubled(name[1..]) + "\"" + after;
      QuoteEndOfDoubled(before + head, name[1..], after);
      assert s[|before|] == name[0];
      if name[0] == '"' {
        assert s[|before| + 1] == '"';
      }
    } else {
      assert s[|before|] == '"' && s[|before| + 1..] == after;
      assert after != "" ==> s[|before| + 1] == after[0];
    }
  }

  /** Reading a printed name gives back the token and the rest of the definition. */
  lemma ReadQuoted(name: string, after: string)
    requires after == "" || after[0] != '"'
    ensures ReadIdentifier(Quote(name) + after) == (Quote(name), Strip(after))
  {
    var s := Quote(name) + after;
    assert LStrip(s) == s;
    assert s == "\"" + Doubled(name) + "\"" + after;
    QuoteEndOfDoubled("\"", name, after);
    var end := 1 + |Doubled(name)|;
    assert s[..end + 1] == Quote(name) && s[end + 1..] == after;
  }

  lemma ReadPlain(name: string, after: string)
    requires name != "" && name[0] != '"' && forall i :: 0 <= i < |name| ==> !IsSpace(name[i])
    requires after == "" || IsSpace(after[0])
    ensures ReadIdentifier(name + after) == (name, Strip(after))
  {
    TokenOfWord(name, after);
    assert (name + after)[0] == name[0];
  }

  /* ---------- Definitions ---------- */

  /** `str.upper` where it can matter for the keywords: ASCII letters, and the letters and ligatures
      outside ASCII that turn into them. */
  function UpperChar(c: char): string {
    if 'a' <= c <= 'z' then [c - 'a' + 'A']
    else if c == '\U{131}' then "I"
    else if c == '\U{17F}' then "S"
    else if c == '\U{FB05}' || c == '\U{FB06}' then "ST"
    else [c]
  }

  function Upper(s: string): string {
    if s == "" then "" else UpperChar(s[0]) + Upper(s[1..])
  }

  predicate IsKeyword(name: string) {
    Upper(name) in {"CONSTRAINT", "PRIMARY", "FOREIGN", "UNIQUE", "CHECK"}
  }

  function Definition(name: string, rest: string): string {
    if rest == "" then name else name + " " + rest
  }

  /** Name and normalised text of a column definition; none for a table constraint. */
  function Signature(definition: string): Option<(string, string)> {
    var s := Strip(definition);
    if s == "" then None
    else
      var (token, rest) := ReadIdentifier(s);
      if token == "" then None
      else if IsKeyword(Unquote(token)) then None
      else Some((Unquote(token), Definition(Unquote(token), Normalize(rest))))
  }

  /** Later definitions of a name overwrite earlier ones. */
  function Collect(items: seq<string>): map<string, string> {
    if items == [] then map[]
    else
      var before := Collect(items[..|items| - 1]);
      match Signature(items[|items| - 1])
      case None => before
      case Some(signature) => before[signature.0 := signature.1]
  }

  function TableBody(sql: string): Option<string> {
    var open := Find(sql, "(", 0);
    if open == -1 then None
    else match Match(START, sql[open..])
      case None => None
      case Some(k) => if k == 0 then None else Some(sql[open + 1..open + k])
  }

  /** The map from column name to definition that a statement declares. */
  function Columns(sql: string): map<string, string> {
    match TableBody(sql)
    case None => map[]
    case Some(body) => Collect(Split("", body, START))
  }

  method ColumnDefinitionFragments(sql: string) returns (definitions: map<string, string>)
    ensures definitions == Columns(sql)
  {
    hide OccursAt, Match, Split, Signature;
    definitions := map[];
    var open := Find(sql, "(", 0);
    if open == -1 {
      return;
    }
    var close := MatchingParen(sql, open);
    if close == -1 {
      return;
    }
    OpensBefore(sql, open);
    var items := SplitTopLevelCsv(sql[open + 1..close]);
    for i := 0 to |items|
      invariant definitions == Collect(items[..i])
    {
      assert items[..i + 1][..i] == items[..i];
      match Signature(items[i]) {
        case None =>
        case Some(signature) => definitions := definitions[signature.0 := signature.1];
      }
    }
    assert items[..|items|] == items;
  }

  lemma OpensBefore(sql: string, open: nat)
    requires OccursAt(sql, "(", open)
    ensures Match(START, sql[open..]).Some? ==> Match(START, sql[open..]).value > 0
  {
    assert sql[open..open + 1][0] == '(';
  }

  /* ---------- What any definition stands for ---------- */

  /** What a definition with this name and this text after the name declares. */
  ghost function Declared(name: string, after: string): Option<(string, string)> {
    var rest := Normalize(after);
    if IsKeyword(name) then None else Some((name, if rest == "" then name else name + " " + rest))
  }

  lemma BlankSignature(s: string)
    requires Blank(s)
    ensures Signature(s) == None
  {
    LStripGap(s, "");
    assert s + "" == s;
  }

  lemma RStripStart(after: string)
    ensures RStrip(after) == "" || RStrip(after)[0] == after[0]
    ensures Normalize(Strip(RStrip(after))) == Normalize(after)
  {
    NormalizeStrip(after);
    NormalizeStrip(RStrip(after));
  }

  /** A quoted name ends at the quote after its doubled text, wherever the definition goes on. */
  lemma QuotedSignature(gap: string, name: string, after: string)
    requires Blank(gap) && (after == "" || after[0] != '"')
    ensures Signature(gap + Quote(name) + after) == Declared(name, after)
  {
    StripAround(gap, Quote(name), after);
    RStripStart(after);
    ReadQuoted(name, RStrip(after));
    UnquoteQuote(name);
    hide Strip, RStrip, Normalize, ReadIdentifier, IsKeyword, Blank, Quote, Unquote;
    assert Quote(name) != "" by {
      QuoteNotEmpty(name);
    }
  }

  lemma QuoteNotEmpty(name: string)
    ensures Quote(name) != ""
  {}

  /** Any other name is the first word. */
  lemma PlainSignature(gap: string, name: string, after: string)
    requires Blank(gap) && name != "" && name[0] != '"' && (forall i :: 0 <= i < |name| ==> !IsSpace(name[i]))
    requires after == "" || IsSpace(after[0])
    ensures Signature(gap + name + after) == Declared(name, after)
  {
    StripAround(gap, name, after);
    RStripStart(after);
    ReadPlain(name, RStrip(after));
    assert Unquote(name) == name;
    hide Strip, RStrip, Normalize, ReadIdentifier, IsKeyword, Blank, Unquote;
  }

  lemma {:induction false} QuoteEndIs(s: string, index: nat) returns (name: string)
    requires QuoteEnd(s, index).Some?
    ensures var end := QuoteEnd(s, index).value;
            s[index..end] == Doubled(name) && s[end] == '"' && (end + 1 == |s| || s[end + 1] != '"')
    decreases |s| - index
  {
    var end := QuoteEnd(s, index).value;
    if s[index] != '"' {
      var rest := QuoteEndIs(s, index + 1);
      name := [s[index]] + rest;
      assert name[1..] == rest && s[index..end] == [s[index]] + s[index + 1..end];
    } else if index + 1 < |s| && s[index + 1] == '"' {
      var rest := QuoteEndIs(s, index + 2);
      name := "\"" + rest;
      assert name[1..] == rest && s[index..end] == "\"\"" + s[index + 2..end];
    } else {
      name := "";
    }
  }

  /** The text is a quoted name and what follows the quote that ends it. */
  ghost predicate ClosedAs(s: string, name: string, after: string) {
    s == Quote(name) + after && (after == "" || after[0] != '"')
  }

  lemma ClosedQuote(s: string) returns (name: string, after: string)
    requires s != "" && s[0] == '"' && QuoteEnd(s, 1).Some?
    ensures ClosedAs(s, name, after)
  {
    var end := QuoteEnd(s, 1).value;
    name := QuoteEndIs(s, 1);
    after := s[end + 1..];
    assert s == "\"" + s[1..end] + "\"" + after;
  }

  /** Without a closing quote the whole definition is the name. */
  lemma UnclosedSignature(s: string)
    requires Trimmed(s) && s != "" && s[0] == '"'
    requires forall name, after :: !ClosedAs(s, name, after)
    ensures Signature(s) == if IsKeyword(Unquote(s)) then None else Some((Unquote(s), Unquote(s)))
  {
    hide QuoteEnd, Normalize, IsKeyword, Unquote, Trimmed;
    StripTrimmed(s);
    if QuoteEnd(s, 1).Some? {
      var name, after := ClosedQuote(s);
    }
    UnclosedRead(s);
  }

  lemma UnclosedRead(s: string)
    requires Trimmed(s) && s != "" && s[0] == '"' && QuoteEnd(s, 1).None?
    ensures ReadIdentifier(s) == (s, "") && Normalize("") == ""
  {
    hide QuoteEnd;
    LStripGap("", s);
    assert "" + s == s;
  }

  /** Text without two quotes in a row stays as it is. */
  lemma {:induction false} UndoubleKeeps(s: string)
    requires forall i :: 0 <= i < |s| - 1 ==> !(s[i] == '"' && s[i + 1] == '"')
    ensures Undouble(s) == s
    ensures s != "" && s[0] != '"' ==> Unquote(s) == s
  {
    if s != "" {
      UndoubleKeeps(s[1..]);
      assert s == [s[0]] + s[1..];
    }
  }

  /** The same word in other ASCII case. */
  ghost predicate SameLetters(name: string, word: string) {
    && |name| == |word|
    && forall i :: 0 <= i < |name| ==>
         name[i] == word[i] || ('A' <= word[i] <= 'Z' && name[i] as int == word[i] as int + 32)
  }

  ghost predicate Ascii(name: string) {
    forall i :: 0 <= i < |name| ==> name[i] as int < 128
  }

  lemma {:induction false} UpperAscii(name: string)
    requires Ascii(name)
    ensures |Upper(name)| == |name|
    ensures forall i :: 0 <= i < |name| ==> Upper(name)[i] == if 'a' <= name[i] <= 'z' then name[i] - ' ' else name[i]
  {
    if name != "" {
      UpperAscii(name[1..]);
    }
  }

  lemma UpperIs(name: string, word: string)
    requires Ascii(name) && forall i :: 0 <= i < |word| ==> 'A' <= word[i] <= 'Z'
    ensures Upper(name) == word <==> SameLetters(name, word)
  {
    UpperAscii(name);
    if SameLetters(name, word) {
      assert forall i :: 0 <= i < |name| ==> Upper(name)[i] == word[i];
    }
    if Upper(name) == word {
      assert forall i :: 0 <= i < |name| ==> Upper(name)[i] == word[i];
    }
  }

  /** The names that make a definition a constraint: five words, in any case. */
  lemma KeywordIff(name: string)
    requires Ascii(name)
    ensures IsKeyword(name) <==>
            || SameLetters(name, "CONSTRAINT") || SameLetters(name, "PRIMARY") || SameLetters(name, "FOREIGN")
            || SameLetters(name, "UNIQUE") || SameLetters(name, "CHECK")
  {
    UpperIs(name, "CONSTRAINT");
    UpperIs(name, "PRIMARY");
    UpperIs(name, "FOREIGN");
    UpperIs(name, "UNIQUE");
    UpperIs(name, "CHECK");
    hide Upper, SameLetters;
  }

  /** The letters outside ASCII whose upper case is that of letters in the five words. */
  lemma UpperBeyondAscii()
    ensures Upper("\U{131}") == "I" && Upper("\U{17F}") == "S" && Upper("\U{FB05}") == "ST" == Upper("\U{FB06}")
  {
    assert "\U{131}"[1..] == "" && "\U{17F}"[1..] == "" && "\U{FB05}"[1..] == "" && "\U{FB06}"[1..] == "";
  }

  ghost predicate Declares(item: string, name: string) {
    Signature(item).Some? && Signature(item).value.0 == name
  }

  ghost predicate LastDeclares(items: seq<string>, i: nat, name: string) {
    i < |items| && Declares(items[i], name) && forall j :: i < j < |items| ==> !Declares(items[j], name)
  }

  /** Each declared name has the text of the last definition that declares it, and no other name is
      there. */
  lemma {:induction false} CollectMeans(items: seq<string>, name: string)
    ensures name in Collect(items) <==> exists i: nat :: LastDeclares(items, i, name)
    ensures forall i: nat :: LastDeclares(items, i, name) ==> Collect(items)[name] == Signature(items[i]).value.1
  {
    hide Signature;
    if items != [] {
      var n := |items| - 1;
      var front := items[..n];
      CollectMeans(front, name);
      if Declares(items[n], name) {
        assert LastDeclares(items, n, name);
      } else {
        forall i: nat
          ensures LastDeclares(items, i, name) <==> LastDeclares(front, i, name)
        {
          assert i < n ==> front[i] == items[i];
          assert forall j :: 0 <= j < n ==> front[j] == items[j];
        }
      }
    }
  }

  lemma FirstOpen(sql: string, open: nat)
    requires open <= |sql| && (forall i :: 0 <= i < open ==> sql[i] != '(') && (open < |sql| ==> sql[open] == '(')
    ensures Find(sql, "(", 0) == if open < |sql| then open else -1
  {
    var r := Find(sql, "(", 0);
    hide Find;
    if open < |sql| {
      OpensAt(sql, open);
    }
    OpensAt(sql, r);
  }

  lemma OpensAt(sql: string, k: int)
    ensures OccursAt(sql, "(", k) <==> 0 <= k < |sql| && sql[k] == '('
  {
    if 0 <= k < |sql| {
      assert sql[k..k + 1] == [sql[k]];
    }
  }

  /** A statement has no columns without a parenthesis that is opened and closed. */
  lemma NoColumns(sql: string, open: nat)
    requires open <= |sql| && (forall i :: 0 <= i < open ==> sql[i] != '(') && (open < |sql| ==> sql[open] == '(')
    requires forall k :: !Closes(START, sql[open..], k)
    ensures Columns(sql) == map[]
  {
    hide Match, Closes, Split, Collect, Find;
    FirstOpen(sql, open);
    MatchIsLeast(START, sql[open..]);
  }

  /** The columns are those of the text between the first parenthesis and the one that closes it. */
  lemma ColumnsMean(sql: string, open: nat, close: nat)
    requires open < close < |sql| && (forall i :: 0 <= i < open ==> sql[i] != '(') && sql[open] == '('
    requires Closes(START, sql[open..], close - open)
    requires forall k :: k < close - open ==> !Closes(START, sql[open..], k)
    ensures Columns(sql) == Collect(Split("", sql[open + 1..close], START))
  {
    hide Match, Closes, Split, Collect, Find;
    FirstOpen(sql, open);
    MatchedAt(sql[open..], close - open);
    assert TableBody(sql) == Some(sql[open + 1..close]);
    hide TableBody;
  }

  lemma MatchedAt(s: string, k: nat)
    requires Closes(START, s, k) && forall j :: j < k ==> !Closes(START, s, j)
    ensures Match(START, s) == Some(k)
  {
    hide Match, Closes;
    MatchIsLeast(START, s);
  }

  /* ---------- Printing, and parsing it back ---------- */

  datatype Column = Column(name: string, quoted: bool, rest: string)

  function Print(c: Column): string {
    (if c.quoted then Quote(c.name) else c.name) + if c.rest == "" then "" else " " + c.rest
  }

  function Body(columns: seq<Column>): string {
    if columns == [] then ""
    else if |columns| == 1 then Print(columns[0])
    else Print(columns[0]) + (", " + Body(columns[1..]))
  }

  function Table(header: string, columns: seq<Column>, trailer: string): string {
    header + ("(" + (Body(columns) + (")" + trailer)))
  }

  /** Parentheses and quotations are closed, and no comma stands outside of them. */
  predicate Balanced(s: string) {
    Fine(START, s) && Scan(START, s) == START
  }

  predicate PlainName(name: string) {
    name != "" && name[0] != '"' && (forall i :: 0 <= i < |name| ==> !IsSpace(name[i])) && Balanced(name)
  }

  /** Any name may be printed quoted. What follows it is normalised and balanced. */
  predicate Printable(c: Column) {
    && (c.quoted || PlainName(c.name))
    && Normalize(c.rest) == c.rest && Balanced(c.rest)
  }

  const QUOTED := Lex(0, Some('"'))

  lemma DoubledCharacter(c: char)
    ensures Fine(QUOTED, Doubled([c])) && Scan(QUOTED, Doubled([c])) == QUOTED
  {
    if c == '"' {
      assert Doubled([c]) == "\"\"" && "\"\""[1..] == "\"" && "\""[1..] == "";
    } else {
      assert Doubled([c]) == [c] && [c][1..] == "";
    }
  }

  lemma {:induction false} DoubledStaysQuoted(name: string, t: string)
    ensures Fine(QUOTED, Doubled(name) + t) <==> Fine(QUOTED, t)
    ensures Scan(QUOTED, Doubled(name) + t) == Scan(QUOTED, t)
  {
    hide Fine, Scan;
    if name == "" {
      assert Doubled(name) + t == t;
    } else {
      var rest := Doubled(name[1..]) + t;
      DoubledStaysQuoted(name[1..], t);
      DoubledCharacter(name[0]);
      assert Doubled(name) + t == Doubled([name[0]]) + rest;
      FineConcat(QUOTED, Doubled([name[0]]), rest);
      ScanConcat(QUOTED, Doubled([name[0]]), rest);
    }
  }

  lemma QuoteBalanced(name: string)
    ensures Balanced(Quote(name))
  {
    assert Quote(name)[1..] == Doubled(name) + "\"";
    DoubledStaysQuoted(name, "\"");
    assert "\""[1..] == "";
  }

  lemma BalancedConcat(s: string, t: string)
    requires Balanced(s) && Balanced(t)
    ensures Balanced(s + t)
  {
    FineConcat(START, s, t);
    ScanConcat(START, s, t);
  }

  lemma SpaceBalanced(s: string)
    requires Balanced(s)
    ensures Balanced(" " + s)
  {
    assert (" " + s)[1..] == s;
  }

  lemma PrintBalanced(c: Column)
    requires Printable(c)
    ensures Balanced(Print(c))
  {
    var name := if c.quoted then Quote(c.name) else c.name;
    QuoteBalanced(c.name);
    if c.rest == "" {
      assert name + "" == name;
    } else {
      SpaceBalanced(c.rest);
      BalancedConcat(name, " " + c.rest);
    }
  }

  lemma PrintTrimmed(c: Column)
    requires Printable(c)
    ensures Print(c) != "" && Trimmed(Print(c))
  {
    NormalizeIdempotent(c.rest);
    var name := if c.quoted then Quote(c.name) else c.name;
    assert name != "" && !IsSpace(name[0]) && !IsSpace(name[|name| - 1]);
    assert Print(c)[0] == name[0];
    assert c.rest != "" ==> Print(c)[|Print(c)| - 1] == c.rest[|c.rest| - 1];
  }

  /** A printed column is read back as its name and definition, unless its name is a constraint
      keyword: then it is taken for a constraint and dropped, quoted or not. */
  lemma PrintSignature(c: Column)
    requires Printable(c)
    ensures Signature(Print(c)) == if IsKeyword(c.name) then None else Some((c.name, Definition(c.name, c.rest)))
  {
    hide Balanced;
    PrintTrimmed(c);
    StripTrimmed(Print(c));
    NormalizeIdempotent(c.rest);
    StripTrimmed(c.rest);
    var after := if c.rest == "" then "" else " " + c.rest;
    assert Strip(after) == c.rest;
    if c.quoted {
      ReadQuoted(c.name, after);
      UnquoteQuote(c.name);
    } else {
      ReadPlain(c.name, after);
    }
  }

  function PrintAll(columns: seq<Column>): (r: seq<string>)
    ensures |r| == |columns|
  {
    seq(|columns|, i requires 0 <= i < |columns| => Print(columns[i]))
  }

  ghost predicate AllPrintable(columns: seq<Column>) {
    forall c :: c in columns ==> Printable(c)
  }

  lemma TailPrintable(columns: seq<Column>)
    requires AllPrintable(columns) && columns != []
    ensures AllPrintable(columns[1..])
  {
    hide Printable;
  }

  lemma SplitSeparator(segment: string, t: string)
    ensures Split(segment, ", " + t, START) == [Strip(segment)] + Split(" ", t, START)
  {
    hide Strip;
    assert (", " + t)[1..] == " " + t && (" " + t)[1..] == t && "" + [' '] == " ";
    assert Split("", " " + t, START) == Split(" ", t, START);
  }

  lemma SplitItem(segment: string, p: string, t: string)
    requires Balanced(p) && Trimmed(p) && p != "" && (segment == "" || segment == " ")
    ensures Split(segment, p, START) == [p]
    ensures Split(segment, p + (", " + t), START) == [p] + Split(" ", t, START)
  {
    StripTrimmed(p);
    assert segment + p == if segment == "" then p else " " + p;
    hide Strip, Trimmed;
    SplitPastFine(segment, p, "", START);
    assert p + "" == p;
    SplitPastFine(segment, p, ", " + t, START);
    SplitSeparator(segment + p, t);
  }

  /** Splitting a printed body gives back the printed columns. */
  lemma {:induction false} SplitBody(segment: string, columns: seq<Column>)
    requires AllPrintable(columns) && (segment == "" || segment == " ")
    ensures Split(segment, Body(columns), START) == PrintAll(columns)
    decreases |columns|
  {
    if columns == [] {
      assert Strip(segment) == "" by {
        assert " "[1..] == "";
      }
    } else {
      hide Print, Printable, Balanced, Split, Trimmed, AllPrintable;
      HeadBalanced(columns);
      TailPrintable(columns);
      SplitItem(segment, Print(columns[0]), if |columns| > 1 then Body(columns[1..]) else "");
      if |columns| > 1 {
        SplitBody(" ", columns[1..]);
        assert PrintAll(columns) == [Print(columns[0])] + PrintAll(columns[1..]);
      }
    }
  }

  lemma MatchInert(c: char, t: string)
    requires (c == ',' || c == ' ') && Match(Up(START), t).Some?
    ensures Match(Up(START), [c] + t) == Some(Match(Up(START), t).value + 1)
  {
    assert ([c] + t)[1..] == t && Next(Up(START), c) == Up(START);
  }

  lemma MatchSeparator(t: string)
    requires Match(Up(START), t).Some?
    ensures Match(Up(START), ", " + t) == Some(Match(Up(START), t).value + 2)
  {
    hide Match;
    MatchInert(' ', t);
    MatchInert(',', [' '] + t);
    assert ", " + t == [','] + ([' '] + t);
  }

  lemma MatchItem(p: string, t: string)
    requires Balanced(p) && Match(Up(START), t).Some?
    ensures Match(Up(START), p + (", " + t)) == Some(|p| + 2 + Match(Up(START), t).value)
  {
    hide Match, Fine, Scan;
    MatchSeparator(t);
    MatchPastFine(START, p, ", " + t);
  }

  lemma MatchLast(p: string, t: string)
    requires Balanced(p) && t != "" && t[0] == ')'
    ensures Match(Up(START), p + t) == Some(|p|)
  {
    hide Fine, Scan;
    assert Match(Up(START), t) == Some(0);
    MatchPastFine(START, p, t);
  }

  /** The parenthesis around a printed body closes just after it. */
  lemma {:induction false} MatchBody(columns: seq<Column>, t: string)
    requires AllPrintable(columns) && t != "" && t[0] == ')'
    ensures Match(Up(START), Body(columns) + t) == Some(|Body(columns)|)
    decreases |columns|
  {
    hide Print, Printable, Match, Balanced, AllPrintable;
    if columns == [] {
      assert "" + t == t;
      MatchLast("", t) by {
        EmptyBalanced();
      }
    } else {
      var p := Print(columns[0]);
      HeadBalanced(columns);
      if |columns| == 1 {
        MatchLast(p, t);
      } else {
        TailPrintable(columns);
        var rest := Body(columns[1..]) + t;
        assert Body(columns) + t == p + (", " + rest);
        MatchBody(columns[1..], t);
        MatchItem(p, rest);
      }
    }
  }

  lemma EmptyBalanced()
    ensures Balanced("")
  {}

  lemma HeadBalanced(columns: seq<Column>)
    requires AllPrintable(columns) && columns != []
    ensures Balanced(Print(columns[0])) && Trimmed(Print(columns[0])) && Print(columns[0]) != ""
  {
    hide Print, Balanced, Trimmed, Printable;
    PrintBalanced(columns[0]);
    PrintTrimmed(columns[0]);
  }

  lemma MatchTable(columns: seq<Column>, trailer: string)
    requires AllPrintable(columns)
    ensures Match(START, "(" + (Body(columns) + (")" + trailer))) == Some(1 + |Body(columns)|)
  {
    hide AllPrintable, Body;
    var tail := Body(columns) + (")" + trailer);
    MatchBody(columns, ")" + trailer);
    assert ("(" + tail)[1..] == tail && Next(START, '(') == Up(START);
  }

  lemma BodyOfTable(header: string, columns: seq<Column>, trailer: string)
    requires '(' !in header && AllPrintable(columns)
    ensures TableBody(Table(header, columns, trailer)) == Some(Body(columns))
  {
    hide Match, Body, AllPrintable;
    var sql := Table(header, columns, trailer);
    var n := |header|;
    var tail := Body(columns) + (")" + trailer);
    assert sql[n..] == "(" + tail && sql[n..n + 1] == "(";
    assert OccursAt(sql, "(", n);
    forall k | 0 <= k < n
      ensures !OccursAt(sql, "(", k)
    {
      assert sql[k..k + 1][0] == header[k] && header[k] in header;
    }
    assert Find(sql, "(", 0) == n;
    MatchTable(columns, trailer);
    assert sql[n + 1..n + 1 + |Body(columns)|] == Body(columns);
  }

  ghost predicate DistinctNames(columns: seq<Column>) {
    forall i, j :: 0 <= i < j < |columns| ==> columns[i].name != columns[j].name
  }

  ghost predicate Named(columns: seq<Column>, name: string) {
    exists c :: c in columns && c.name == name && !IsKeyword(name)
  }

  lemma {:induction false} CollectPrinted(columns: seq<Column>)
    requires AllPrintable(columns) && DistinctNames(columns)
    ensures forall i :: 0 <= i < |columns| && !IsKeyword(columns[i].name) ==>
              && columns[i].name in Collect(PrintAll(columns))
              && Collect(PrintAll(columns))[columns[i].name] == Definition(columns[i].name, columns[i].rest)
    ensures forall name :: name in Collect(PrintAll(columns)) ==> Named(columns, name)
  {
    hide Print, Printable, Signature, Definition, IsKeyword;
    if columns != [] {
      var n := |columns| - 1;
      var front, last := columns[..n], columns[n];
      assert last in columns;
      PrintSignature(last);
      CollectPrinted(front);
      assert PrintAll(columns)[..n] == PrintAll(front);
      CollectStep(PrintAll(columns), last);
      assert forall i :: 0 <= i < n ==> front[i] == columns[i];
      forall name | name in Collect(PrintAll(columns))
        ensures Named(columns, name)
      {
        if name != last.name || IsKeyword(last.name) {
          assert Named(front, name);
        }
      }
    }
  }

  lemma CollectStep(items: seq<string>, last: Column)
    requires items != [] && items[|items| - 1] == Print(last) && Printable(last)
    ensures var before := Collect(items[..|items| - 1]);
            Collect(items) == if IsKeyword(last.name) then before
                              else before[last.name := Definition(last.name, last.rest)]
  {
    hide Print, Printable, Signature, Definition, IsKeyword;
    PrintSignature(last);
  }

  /** Parsing a printed table gives back exactly the map from names to definitions of those columns
      whose name is not a constraint keyword. */
  lemma ParsePrintedTable(header: string, columns: seq<Column>, trailer: string)
    requires '(' !in header && AllPrintable(columns) && DistinctNames(columns)
    ensures var parsed := Columns(Table(header, columns, trailer));
            && (forall i :: 0 <= i < |columns| && !IsKeyword(columns[i].name) ==>
                  columns[i].name in parsed && parsed[columns[i].name] == Definition(columns[i].name, columns[i].rest))
            && (forall name :: name in parsed ==> Named(columns, name))
  {
    hide AllPrintable, Split, Collect, Table, IsKeyword, Definition, DistinctNames;
    BodyOfTable(header, columns, trailer);
    SplitBody("", columns);
    CollectPrinted(columns);
  }

  ghost predicate Recovers(parsed: map<string, string>, columns: seq<Column>) {
    forall i :: 0 <= i < |columns| ==>
      columns[i].name in parsed && parsed[columns[i].name] == Definition(columns[i].name, columns[i].rest)
  }

  ghost predicate NoKeywords(columns: seq<Column>) {
    forall i :: 0 <= i < |columns| ==> !IsKeyword(columns[i].name)
  }

  /** The parser finds every column of a printed table with its definition exactly when no column is
      named by a constraint keyword. */
  lemma TableRecoveredIff(header: string, columns: seq<Column>, trailer: string)
    requires '(' !in header && AllPrintable(columns) && DistinctNames(columns)
    ensures Recovers(Columns(Table(header, columns, trailer)), columns) <==> NoKeywords(columns)
  {
    hide AllPrintable, Columns, Table, IsKeyword, Definition, DistinctNames;
    ParsePrintedTable(header, columns, trailer);
    if !NoKeywords(columns) {
      var i :| 0 <= i < |columns| && IsKeyword(columns[i].name);
      assert columns[i].name !in Columns(Table(header, columns, trailer));
    }
  }

  /** A printed column, quoted or not, is dropped exactly when its name is a constraint keyword. */
  lemma KeywordColumnDropped(c: Column)
    requires Printable(c)
    ensures Signature(Print(c)).None? <==> IsKeyword(c.name)
  {
    PrintSignature(c);
    hide Signature, Print, Printable, IsKeyword;
  }

  lemma UpperCheck()
    ensures Upper("check") == "CHECK"
  {
    assert "check"[1..] == "heck" && "heck"[1..] == "eck" && "eck"[1..] == "ck" && "ck"[1..] == "k" && "k"[1..] == "";
    assert Upper("k") == "K" && Upper("ck") == "CK" && Upper("eck") == "ECK" && Upper("heck") == "HECK";
  }

  /** A quoted column named check, say. */
  lemma KeywordColumnExample()
    ensures Signature(Quote("check")) == None
  {
    var c := Column("check", true, "");
    assert Printable(c) && Print(c) == Quote("check") by {
      EmptyBalanced();
      assert Quote("check") + "" == Quote("check");
    }
    UpperCheck();
    assert IsKeyword("check");
    PrintSignature(c);
  }
}
