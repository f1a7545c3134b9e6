// tokenizeArguments: a command line into arguments, with quotes for grouping and no shell.
module Tokenizer {
  import opened Text

  datatype Result = Tokens(tokens: seq<string>) | UnclosedQuote

  // Where the scan is: what it has put out, the argument in hand, and the quote it is inside, if any.
  datatype Quote = Outside | Inside(q: char)
  datatype Scan = Scan(tokens: seq<string>, current: string, quote: Quote)

  predicate IsQuote(c: char) { c == '\'' || c == '"' }

  function Flush(s: Scan): Scan {
    if s.current == "" then s else s.(tokens := s.tokens + [s.current], current := "")
  }

  function Read(s: Scan, r: char): Scan {
    match s.quote
    case Inside(q) => if r == q then s.(quote := Outside) else s.(current := s.current + [r])
    case Outside =>
      if IsQuote(r) then s.(quote := Inside(r))
      else if IsSpace(r) then Flush(s)
      else s.(current := s.current + [r])
  }

  function ReadAll(s: Scan, text: string): Scan
    decreases |text|
  {
    if text == "" then s else ReadAll(Read(s, text[0]), text[1..])
  }

  function End(s: Scan): Result {
    if s.quote != Outside then UnclosedQuote else Tokens(Flush(s).tokens)
  }

  const START := Scan([], "", Outside)

  function Tokenized(text: string): Result { End(ReadAll(START, text)) }

  lemma {:induction false} ReadAllSnoc(s: Scan, text: string, r: char)
    ensures ReadAll(s, text + [r]) == Read(ReadAll(s, text), r)
    decreases |text|
  {
    if text == "" {
      assert ([] + [r])[1..] == "";
      assert ReadAll(s, [r]) == ReadAll(Read(s, r), "");
      assert text + [r] == [r];
    } else {
      assert (text + [r])[1..] == text[1..] + [r];
      ReadAllSnoc(Read(s, text[0]), text[1..], r);
    }
  }

  method TokenizeArguments(text: string) returns (result: Result)
    ensures result == Tokenized(text)
  {
    var tokens: seq<string>, current: string := [], "";
    var inQuotes, quoteChar := false, '\0';
    for i := 0 to |text|
      invariant ReadAll(START, text[..i]) == Scan(tokens, current, if inQuotes then Inside(quoteChar) else Outside)
    {
      var r := text[i];
      assert text[..i + 1] == text[..i] + [r];
      ReadAllSnoc(START, text[..i], r);
      if inQuotes {
        if r == quoteChar {
          inQuotes := false;
          quoteChar := '\0';
        } else {
          current := current + [r];
        }
      } else {
        if r == '\'' || r == '"' {
          inQuotes := true;
          quoteChar := r;
        } else if IsSpace(r) {
          if |current| > 0 {
            tokens := tokens + [current];
            current := "";
          }
        } else {
          current := current + [r];
        }
      }
    }
    assert text[..|text|] == text;
    if inQuotes {
      return UnclosedQuote;
    }
    if |current| > 0 {
      tokens := tokens + [current];
    }
    result := Tokens(tokens);
  }

  // ---- What the tokens are ----

  // The quote that the end of a text is inside of, starting from another.
  function QuoteAfter(q: Quote, text: string): Quote
    decreases |text|
  {
    if text == "" then q
    else QuoteAfter(
      match q
      case Inside(c) => if text[0] == c then Outside else q
      case Outside => if IsQuote(text[0]) then Inside(text[0]) else Outside, text[1..])
  }

  // A text without its delimiting quotes and its unquoted white space.
  function Content(q: Quote, text: string): string
    decreases |text|
  {
    if text == "" then ""
    else
      match q
      case Inside(c) => if text[0] == c then Content(Outside, text[1..]) else [text[0]] + Content(q, text[1..])
      case Outside =>
        if IsQuote(text[0]) then Content(Inside(text[0]), text[1..])
        else if IsSpace(text[0]) then Content(Outside, text[1..])
        else [text[0]] + Content(Outside, text[1..])
  }

  function Concat(tokens: seq<string>): string {
    if tokens == [] then "" else Concat(tokens[..|tokens| - 1]) + tokens[|tokens| - 1]
  }

  ghost predicate NoneEmpty(tokens: seq<string>) {
    forall i | 0 <= i < |tokens| :: tokens[i] != ""
  }

  lemma {:induction false} ReadConcat(s: Scan, r: char)
    requires NoneEmpty(s.tokens)
    ensures var s' := Read(s, r);
            && NoneEmpty(s'.tokens) && s'.quote == QuoteAfter(s.quote, [r])
            && Concat(s'.tokens) + s'.current == Concat(s.tokens) + s.current + Content(s.quote, [r])
  {
    var s' := Read(s, r);
    if s'.tokens != s.tokens {
      assert s'.tokens[..|s'.tokens| - 1] == s.tokens;
    }
    assert [r][1..] == "";
    assert QuoteAfter(s'.quote, "") == s'.quote && Content(s'.quote, "") == "";
  }

  lemma {:induction false} ContentCons(q: Quote, text: string)
    requires text != ""
    ensures var next := QuoteAfter(q, [text[0]]);
            && QuoteAfter(q, text) == QuoteAfter(next, text[1..])
            && Content(q, text) == Content(q, [text[0]]) + Content(next, text[1..])
  {
    var next := QuoteAfter(q, [text[0]]);
    assert [text[0]][1..] == "";
    assert Content(next, "") == "" && QuoteAfter(next, "") == next;
  }

  lemma {:induction false} ReadAllConcat(s: Scan, text: string)
    requires NoneEmpty(s.tokens)
    ensures var s' := ReadAll(s, text);
            && NoneEmpty(s'.tokens) && s'.quote == QuoteAfter(s.quote, text)
            && Concat(s'.tokens) + s'.current == Concat(s.tokens) + s.current + Content(s.quote, text)
    decreases |text|
  {
    if text != "" {
      var s1 := Read(s, text[0]);
      ReadConcat(s, text[0]);
      ReadAllConcat(s1, text[1..]);
      ContentCons(s.quote, text);
    } else {
      assert Concat(s.tokens) + s.current + "" == Concat(s.tokens) + s.current;
    }
  }

  // An error arises exactly when a quote is left open; otherwise no token is empty, and the tokens
  // together are the text without its delimiting quotes and its unquoted white space.
  lemma {:induction false} TokensExactly(text: string)
    ensures Tokenized(text) == UnclosedQuote <==> QuoteAfter(Outside, text) != Outside
    ensures Tokenized(text).Tokens? ==>
      NoneEmpty(Tokenized(text).tokens) && Concat(Tokenized(text).tokens) == Content(Outside, text)
  {
    var s := ReadAll(START, text);
    ReadAllConcat(START, text);
    assert Concat(START.tokens) + START.current + Content(Outside, text) == Content(Outside, text);
    if s.current == "" {
      assert Concat(s.tokens) + s.current == Concat(s.tokens);
    } else {
      assert (s.tokens + [s.current])[..|s.tokens|] == s.tokens;
    }
  }

  // ---- Where one token ends and the next begins ----

  // No white space outside quotes.
  predicate Unbroken(q: Quote, text: string)
    decreases |text|
  {
    text == "" ||
    ((q == Outside ==> !IsSpace(text[0])) && Unbroken(QuoteAfter(q, [text[0]]), text[1..]))
  }

  lemma {:induction false} ReadUnbroken(s: Scan, text: string)
    requires Unbroken(s.quote, text)
    ensures ReadAll(s, text) == Scan(s.tokens, s.current + Content(s.quote, text), QuoteAfter(s.quote, text))
    decreases |text|
  {
    if text == "" {
      assert s.current + "" == s.current;
    } else {
      var s1 := Read(s, text[0]);
      ContentCons(s.quote, text);
      ReadOne(s, text[0]);
      ReadUnbroken(s1, text[1..]);
    }
  }

  lemma {:induction false} ReadOne(s: Scan, r: char)
    requires s.quote == Outside ==> !IsSpace(r)
    ensures Read(s, r) == Scan(s.tokens, s.current + Content(s.quote, [r]), QuoteAfter(s.quote, [r]))
  {
    assert [r][1..] == "" && s.current + "" == s.current;
    assert Content(Outside, "") == "" && forall c :: Content(Inside(c), "") == "" && QuoteAfter(Inside(c), "") == Inside(c);
  }

  // Text without unquoted white space is one token: quotes inside it join, they do not separate.
  lemma {:induction false} UnbrokenIsOneToken(text: string)
    requires Unbroken(Outside, text) && QuoteAfter(Outside, text) == Outside
    ensures Tokenized(text) == Tokens(if Content(Outside, text) == "" then [] else [Content(Outside, text)])
  {
    ReadUnbroken(START, text);
    assert "" + Content(Outside, text) == Content(Outside, text);
  }

  lemma {:induction false} ReadAfter(before: seq<string>, s: Scan, text: string)
    ensures var r := ReadAll(s, text);
            ReadAll(s.(tokens := before + s.tokens), text) == r.(tokens := before + r.tokens)
    decreases |text|
  {
    if text != "" {
      var s1 := Read(s, text[0]);
      assert before + (s.tokens + [s.current]) == before + s.tokens + [s.current];
      ReadAfter(before, s1, text[1..]);
    }
  }

  // White space outside quotes separates: what is before it and what is after it are read apart.
  lemma {:induction false} SpaceSeparates(a: string, c: char, b: string)
    requires Tokenized(a).Tokens? && IsSpace(c)
    ensures Tokenized(a + [c] + b) ==
      match Tokenized(b)
      case UnclosedQuote => UnclosedQuote
      case Tokens(after) => Tokens(Tokenized(a).tokens + after)
  {
    var ta := Tokenized(a).tokens;
    ReadAllAppend(START, a + [c], b);
    ReadAllSnoc(START, a, c);
    assert ReadAll(START, a + [c]) == Scan(ta, "", Outside);
    assert START.(tokens := ta + START.tokens) == Scan(ta, "", Outside);
    ReadAfter(ta, START, b);
    var r := ReadAll(START, b);
    assert ta + (r.tokens + [r.current]) == ta + r.tokens + [r.current];
  }

  // ---- Round trip ----

  predicate Quotable(arg: string) {
    arg != "" && ('\'' !in arg || '"' !in arg)
  }

  ghost predicate AllQuotable(args: seq<string>) {
    forall i | 0 <= i < |args| :: Quotable(args[i])
  }

  // An argument in quotes of a kind it does not hold.
  function Quoted(arg: string): string {
    if '\'' !in arg then "'" + arg + "'" else "\"" + arg + "\""
  }

  function CommandLine(args: seq<string>): string {
    if args == [] then ""
    else if |args| == 1 then Quoted(args[0])
    else CommandLine(args[..|args| - 1]) + " " + Quoted(args[|args| - 1])
  }

  lemma {:induction false} ReadAllAppend(s: Scan, a: string, b: string)
    ensures ReadAll(s, a + b) == ReadAll(ReadAll(s, a), b)
    decreases |a|
  {
    if a == "" {
      assert a + b == b;
    } else {
      assert (a + b)[1..] == a[1..] + b;
      ReadAllAppend(Read(s, a[0]), a[1..], b);
    }
  }

  lemma {:induction false} ReadInside(s: Scan, q: char, arg: string)
    requires s.quote == Inside(q) && q !in arg
    ensures ReadAll(s, arg) == s.(current := s.current + arg)
    decreases |arg|
  {
    if arg == "" {
      assert s.current + arg == s.current;
    } else {
      var s1 := Read(s, arg[0]);
      ReadInside(s1, q, arg[1..]);
      assert s.current + [arg[0]] + arg[1..] == s.current + arg;
    }
  }

  lemma {:induction false} ReadQuoted(s: Scan, arg: string)
    requires s.quote == Outside && s.current == "" && Quotable(arg)
    ensures ReadAll(s, Quoted(arg)) == s.(current := arg)
  {
    var q := if '\'' !in arg then '\'' else '"';
    var inside := Read(s, q);
    assert Quoted(arg) == [q] + (arg + [q]);
    assert ([q] + (arg + [q]))[1..] == arg + [q];
    ReadAllSnoc(inside, arg, q);
    ReadInside(inside, q, arg);
    assert "" + arg == arg;
  }

  lemma {:induction false} ReadCommandLine(args: seq<string>)
    requires args != [] && AllQuotable(args)
    ensures ReadAll(START, CommandLine(args)) == Scan(args[..|args| - 1], args[|args| - 1], Outside)
    decreases |args|
  {
    var n := |args| - 1;
    if n == 0 {
      ReadQuoted(START, args[0]);
    } else {
      var before, s := CommandLine(args[..n]), ReadAll(START, CommandLine(args[..n]));
      ReadCommandLine(args[..n]);
      ReadAllAppend(START, before + " ", Quoted(args[n]));
      ReadAllSnoc(START, before, ' ');
      assert args[..n][..n - 1] + [args[n - 1]] == args[..n];
      ReadQuoted(Scan(args[..n], "", Outside), args[n]);
    }
  }

  lemma {:induction false} LastArgumentFlushed(line: string, args: seq<string>)
    requires args != [] && args[|args| - 1] != ""
    requires ReadAll(START, line) == Scan(args[..|args| - 1], args[|args| - 1], Outside)
    ensures Tokenized(line) == Tokens(args)
  {
    assert args[..|args| - 1] + [args[|args| - 1]] == args;
  }

  // Arguments quoted one by one and joined by spaces are read back as they were.
  lemma {:induction false} QuotedArgumentsReturn(args: seq<string>)
    requires AllQuotable(args)
    ensures Tokenized(CommandLine(args)) == Tokens(args)
  {
    if args == [] {
      assert Tokenized("") == Tokens([]);
    } else {
      ReadCommandLine(args);
      assert Quotable(args[|args| - 1]);
      LastArgumentFlushed(CommandLine(args), args);
    }
  }

  // How many characters of a text are delimiting quotes.
  function Delimiters(q: Quote, text: string): nat
    decreases |text|
  {
    if text == "" then 0
    else
      var next := QuoteAfter(q, [text[0]]);
      (if next != q then 1 else 0) + Delimiters(next, text[1..])
  }

  lemma {:induction false} ContentShorter(q: Quote, text: string)
    ensures |Content(q, text)| + Delimiters(q, text) <= |text|
    decreases |text|
  {
    if text != "" {
      ContentCons(q, text);
      assert [text[0]][1..] == "";
      ContentShorter(QuoteAfter(q, [text[0]]), text[1..]);
    }
  }

  lemma {:induction false} DelimitersAppend(q: Quote, a: string, b: string)
    ensures Delimiters(q, a + b) == Delimiters(q, a) + Delimiters(QuoteAfter(q, a), b)
    ensures QuoteAfter(q, a + b) == QuoteAfter(QuoteAfter(q, a), b)
    decreases |a|
  {
    if a == "" {
      assert a + b == b;
    } else {
      assert (a + b)[1..] == a[1..] + b && (a + b)[0] == a[0];
      ContentCons(q, a);
      ContentCons(q, a + b);
      DelimitersAppend(QuoteAfter(q, [a[0]]), a[1..], b);
    }
  }

  // Outside at the start, a text that ends up inside a quote has a delimiter.
  lemma {:induction false} ChangedByDelimiters(q: Quote, text: string)
    requires Delimiters(q, text) == 0
    ensures QuoteAfter(q, text) == q
    decreases |text|
  {
    if text != "" {
      ContentCons(q, text);
      ChangedByDelimiters(QuoteAfter(q, [text[0]]), text[1..]);
    }
  }

  lemma {:induction false} InsideStays(q: char, c: char)
    ensures QuoteAfter(Inside(q), [c]) == if c == q then Outside else Inside(q)
    ensures QuoteAfter(Outside, [q]) == if IsQuote(q) then Inside(q) else Outside
  {
    assert [c][1..] == "" && [q][1..] == "";
    assert forall p :: QuoteAfter(p, "") == p;
  }

  lemma {:induction false} ClosesWithin(arg: string)
    requires '"' in arg
    ensures Delimiters(Inside('"'), arg + "\"") >= 2
    decreases |arg|
  {
    var line := arg + "\"";
    assert line == [line[0]] + line[1..] && [line[0]][1..] == "";
    if arg[0] == '"' {
      var rest := arg[1..];
      assert line[1..] == rest + "\"";
      DelimitersAppend(Outside, rest, "\"");
      if Delimiters(Outside, rest) == 0 { ChangedByDelimiters(Outside, rest); }
    } else {
      assert line[1..] == arg[1..] + "\"";
      InsideStays('"', line[0]);
      assert '"' in arg[1..];
      ClosesWithin(arg[1..]);
    }
  }

  // An argument that holds both quote characters does not come back: quoting it takes a quote it holds,
  // which closes early, so at least three delimiters are dropped where two were added.
  lemma {:induction false} BothQuotesDoNotReturn(arg: string)
    requires '\'' in arg && '"' in arg
    ensures Tokenized(CommandLine([arg])) != Tokens([arg])
  {
    var line := "\"" + arg + "\"";
    var rest := arg + "\"";
    assert CommandLine([arg]) == line && line[1..] == rest && line[0] == '"';
    ClosesWithin(arg);
    InsideStays('"', '"');
    assert Delimiters(Outside, line) == 1 + Delimiters(Inside('"'), rest);
    ContentShorter(Outside, line);
    TokensExactly(line);
    assert Concat([arg]) == Concat([]) + arg == arg by { assert [arg][..0] == []; }
  }

  // So a single argument comes back exactly when it is not empty and lacks one of the quote characters.
  lemma {:induction false} ArgumentReturnsExactly(arg: string)
    ensures Tokenized(CommandLine([arg])) == Tokens([arg]) <==> Quotable(arg)
  {
    if arg == "" {
      EmptyArgumentVanishes();
    } else if Quotable(arg) {
      QuotedArgumentsReturn([arg]);
    } else {
      BothQuotesDoNotReturn(arg);
    }
  }

  // The condition is needed: an empty argument disappears.
  lemma {:induction false} EmptyArgumentVanishes()
    ensures Tokenized(CommandLine([""])) == Tokens([])
  {
    assert CommandLine([""]) == "''";
    assert "''"[1..] == "'" && "'"[1..] == "";
    assert ReadAll(START, "''") == ReadAll(Read(START, '\''), "'") == Read(Read(START, '\''), '\'');
  }
}
