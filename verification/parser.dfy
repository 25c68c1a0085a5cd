/** The parser front end: the text preprocessor that runs before the
    grammar engine, and the top-level dispatch over the pairs it returns. */
module Parser {
  import opened Wrappers
  import opened Strings
  import opened Ast

  // ---------------------------------------------------------------------
  // Preprocessing

  /** Step 1: every CRLF becomes a bare line feed. */
  function NormalizeLineEndings(s: string): (r: string)
    ensures r == DropCrBeforeLf(s)
    ensures |r| == |s| - CrlfCount(s)
  {
    NormalizeIsDropCr(s);
    DropCrBeforeLfLength(s);
    ReplaceAll(s, "\r\n", "\n")
  }

  /** Step 2: every backslash immediately followed by a line feed is
      deleted together with that line feed. */
  function SpliceContinuations(s: string): (r: string)
    ensures r == DropContinuations(s)
    ensures |r| == |s| - 2 * ContinuationCount(s)
  {
    SpliceIsDropContinuations(s);
    DropContinuationsLength(s);
    ReplaceAll(s, "\\\n", "")
  }

  /** Reference for step 1, character by character: a carriage return
      directly before a line feed is dropped, every other character kept. */
  function DropCrBeforeLf(s: string): string
  {
    if s == [] then []
    else if |s| >= 2 && s[0] == '\r' && s[1] == '\n' then DropCrBeforeLf(s[1..])
    else [s[0]] + DropCrBeforeLf(s[1..])
  }

  /** Number of carriage returns directly followed by a line feed. */
  function CrlfCount(s: string): nat
  {
    if s == [] then 0
    else (if |s| >= 2 && s[0] == '\r' && s[1] == '\n' then 1 else 0) + CrlfCount(s[1..])
  }

  /** Reference for step 2, character by character: a backslash directly
      before a line feed is dropped together with that line feed, every
      other character kept. */
  function DropContinuations(s: string): string
  {
    if s == [] then []
    else if |s| >= 2 && s[0] == '\\' && s[1] == '\n' then DropContinuations(s[2..])
    else [s[0]] + DropContinuations(s[1..])
  }

  /** Number of backslashes directly followed by a line feed. Such pairs
      never overlap, since a line feed is not a backslash. */
  function ContinuationCount(s: string): nat
  {
    if s == [] then 0
    else (if |s| >= 2 && s[0] == '\\' && s[1] == '\n' then 1 else 0) + ContinuationCount(s[1..])
  }

  /** The scan for CRLF is the reference definition of step 1. */
  lemma {:induction false} NormalizeIsDropCr(s: string)
    ensures ReplaceAll(s, "\r\n", "\n") == DropCrBeforeLf(s)
    decreases |s|
  {
    if |s| >= 2 {
      if s[..2] == "\r\n" {
        NormalizeIsDropCr(s[2..]);
        assert s[1..][1..] == s[2..];
      } else {
        NormalizeIsDropCr(s[1..]);
      }
    } else if |s| == 1 {
      assert DropCrBeforeLf(s[1..]) == [];
    }
  }

  /** Step 1 shortens the text by one character per CRLF. */
  lemma {:induction false} DropCrBeforeLfLength(s: string)
    ensures |DropCrBeforeLf(s)| == |s| - CrlfCount(s)
    ensures CrlfCount(s) <= |s|
    decreases |s|
  {
    if s != [] {
      DropCrBeforeLfLength(s[1..]);
    }
  }

  /** The scan for backslash-newline is the reference definition of
      step 2. */
  lemma {:induction false} SpliceIsDropContinuations(s: string)
    ensures ReplaceAll(s, "\\\n", "") == DropContinuations(s)
    decreases |s|
  {
    if |s| >= 2 {
      if s[..2] == "\\\n" {
        SpliceIsDropContinuations(s[2..]);
      } else {
        SpliceIsDropContinuations(s[1..]);
      }
    } else if |s| == 1 {
      assert DropContinuations(s[1..]) == [];
    }
  }

  /** Step 2 shortens the text by two characters per backslash-newline. */
  lemma {:induction false} DropContinuationsLength(s: string)
    ensures |DropContinuations(s)| == |s| - 2 * ContinuationCount(s)
    ensures 2 * ContinuationCount(s) <= |s|
    decreases |s|
  {
    if s != [] {
      if |s| >= 2 && s[0] == '\\' && s[1] == '\n' {
        DropContinuationsLength(s[2..]);
        assert ContinuationCount(s[1..]) == ContinuationCount(s[2..]);
      } else {
        DropContinuationsLength(s[1..]);
      }
    }
  }

  /** Step 3: every tab becomes `tabSize` spaces. */
  function ExpandTabs(s: string, tabSize: nat): (r: string)
    ensures r == ExpandChar(s, '\t', Spaces(tabSize))
    ensures '\t' !in r
    ensures |r| == |s| + (tabSize - 1) * CountChar(s, '\t')
  {
    ReplaceCharIsExpand(s, '\t', Spaces(tabSize));
    ExpandCharLength(s, '\t', Spaces(tabSize));
    ReplaceAll(s, "\t", Spaces(tabSize))
  }

  /** The three replacements, in their fixed order. */
  function Preprocess(text: string, tabSize: nat): (r: string)
    ensures '\t' !in r
  {
    ExpandTabs(SpliceContinuations(NormalizeLineEndings(text)), tabSize)
  }

  /** A character that does not occur in the text rules out every pattern
      that starts with it. */
  lemma AbsentHead(pat: string, s: string)
    requires |pat| > 0 && pat[0] !in s
    ensures !Occurs(pat, s)
  {
    if Occurs(pat, s) {
      OccursHead(pat, s);
    }
  }

  /** Text already free of CRLF, of backslash-newline and of tabs comes out
      unchanged, whatever the tab size. */
  lemma NormalizedIsFixedPoint(text: string, tabSize: nat)
    requires !Occurs("\r\n", text) && !Occurs("\\\n", text) && '\t' !in text
    ensures Preprocess(text, tabSize) == text
  {
    ReplaceAllNoMatch(text, "\r\n", "\n");
    ReplaceAllNoMatch(text, "\\\n", "");
    AbsentHead("\t", text);
    ReplaceAllNoMatch(text, "\t", Spaces(tabSize));
  }

  /** Without carriage returns and backslashes only the tab expansion acts:
      each tab becomes exactly `tabSize` spaces, so the length grows by
      `tabSize - 1` per tab. */
  lemma PreprocessOnlyExpandsTabs(text: string, tabSize: nat)
    requires '\r' !in text && '\\' !in text
    ensures Preprocess(text, tabSize) == ExpandChar(text, '\t', Spaces(tabSize))
    ensures |Preprocess(text, tabSize)| == |text| + (tabSize - 1) * CountChar(text, '\t')
  {
    AbsentHead("\r\n", text);
    ReplaceAllNoMatch(text, "\r\n", "\n");
    AbsentHead("\\\n", text);
    ReplaceAllNoMatch(text, "\\\n", "");
  }

  /** `"a\tb"` with tab size 2 gives `"a  b"`. */
  lemma TabExample()
    ensures Preprocess("a\tb", 2) == "a  b"
  {
    PreprocessOnlyExpandsTabs("a\tb", 2);
    assert ExpandChar("a\tb", '\t', Spaces(2)) == "a  b";
  }

  /** Because CRLF is normalised before continuations are spliced, a
      backslash before a CRLF disappears with it; in the other order it
      would survive as a backslash-newline. */
  lemma OrderSplicesCrlfContinuation(tabSize: nat)
    ensures Preprocess("a\\\r\nb", tabSize) == "ab"
    ensures NormalizeLineEndings(SpliceContinuations("a\\\r\nb")) == "a\\\nb"
  {
    NormalizeCrlfExample();
    SpliceExample();
    NormalizedIsFixedPoint("ab", tabSize);
    SpliceSkipsCrlfExample();
  }

  lemma NormalizeCrlfExample()
    ensures NormalizeLineEndings("a\\\r\nb") == "a\\\nb"
  {
    assert ReplaceAll("\r\nb", "\r\n", "\n") == "\nb";
    assert ReplaceAll("\\\r\nb", "\r\n", "\n") == "\\\nb";
  }

  lemma SpliceExample()
    ensures SpliceContinuations("a\\\nb") == "ab"
  {
    assert ReplaceAll("\\\nb", "\\\n", "") == "b";
  }

  lemma SpliceSkipsCrlfExample()
    ensures SpliceContinuations("a\\\r\nb") == "a\\\r\nb"
  {
    assert ReplaceAll("\nb", "\\\n", "") == "\nb";
    assert ReplaceAll("\r\nb", "\\\n", "") == "\r\nb";
    assert ReplaceAll("\\\r\nb", "\\\n", "") == "\\\r\nb";
  }

  /** Preprocessing is not idempotent on arbitrary text: splicing can join a
      carriage return to a later line feed, leaving a CRLF that a second
      pass would normalise. */
  lemma PreprocessNotIdempotent(tabSize: nat)
    ensures Preprocess("\r\\\n\n", tabSize) == "\r\n"
    ensures Preprocess("\r\n", tabSize) == "\n"
  {
    assert NormalizeLineEndings("\r\\\n\n") == "\r\\\n\n";
    assert SpliceContinuations("\r\\\n\n") == "\r\n";
    AbsentHead("\t", "\r\n");
    ReplaceAllNoMatch("\r\n", "\t", Spaces(tabSize));
    assert NormalizeLineEndings("\r\n") == "\n";
    assert SpliceContinuations("\n") == "\n";
    AbsentHead("\t", "\n");
    ReplaceAllNoMatch("\n", "\t", Spaces(tabSize));
  }

  // ---------------------------------------------------------------------
  // Top-level dispatch

  /** The rule tag of a pair produced by the grammar engine: the end of
      input, or any other rule of the grammar. */
  datatype Rule = EOI | Other(name: string)

  /** The errors a parse returns. */
  datatype ParserError =
    | AcquisitionError(message: string)  // the source text could not be obtained
    | SyntaxError(message: string)       // the grammar engine rejected the text

  /** What a parse ends in: a tree, a returned error, or a panic on a rule
      the dispatch does not handle. */
  datatype ParseOutcome =
    | Parsed(ast: AST)
    | Failed(error: ParserError)
    | Aborted(rule: Rule)

  /** The input to a parse: an optional URL and the text, or the error met
      while obtaining it. */
  datatype Source = Source(url: Option<string>, text: Result<string, ParserError>)

  /** The outcome of the dispatch over a sequence of top-level pairs: `EOI`
      pairs are skipped, the first other pair aborts, and if none aborts the
      collected (empty) statement list is returned. */
  ghost function ProgramOutcome(pairs: seq<Rule>): ParseOutcome
  {
    if pairs == [] then Parsed(StatementNode([], DefaultRange()))
    else if pairs[0] == EOI then ProgramOutcome(pairs[1..])
    else Aborted(pairs[0])
  }

  /** The dispatch succeeds exactly when every pair is `EOI`, and then
      yields a statement node with no children. */
  lemma {:induction false} OnlyEoiSucceeds(pairs: seq<Rule>)
    ensures ProgramOutcome(pairs).Parsed? <==> forall i :: 0 <= i < |pairs| ==> pairs[i] == EOI
    ensures ProgramOutcome(pairs).Parsed? ==>
      Kind(ProgramOutcome(pairs).ast) == ASTKind.Statement && Children(ProgramOutcome(pairs).ast) == []
  {
    if pairs != [] && pairs[0] == EOI {
      OnlyEoiSucceeds(pairs[1..]);
      assert forall i :: 1 <= i < |pairs| ==> pairs[i] == pairs[1..][i - 1];
    }
  }

  /** The dispatch aborts on the first pair that is not `EOI`. */
  lemma {:induction false} FirstNonEoiAborts(pairs: seq<Rule>, k: nat)
    requires k < |pairs| && pairs[k] != EOI
    requires forall i :: 0 <= i < k ==> pairs[i] == EOI
    ensures ProgramOutcome(pairs) == Aborted(pairs[k])
  {
    if k > 0 {
      FirstNonEoiAborts(pairs[1..], k - 1);
    }
  }

  /** The outcome of a whole parse, given the grammar engine as a function
      from normalised text to its top-level pairs. */
  ghost function ParseSpec(text: Result<string, ParserError>, tabSize: nat,
                           grammar: string -> Result<seq<Rule>, ParserError>): ParseOutcome
  {
    match text
    case Err(e) => Failed(e)
    case Ok(t) =>
      match grammar(Preprocess(t, tabSize))
      case Err(e) => Failed(e)
      case Ok(pairs) => ProgramOutcome(pairs)
  }

  /** Whatever the text and the grammar, a successful parse yields a
      statement node without children: no top-level rule but `EOI` is
      translated. */
  lemma ParsedIsEmpty(text: Result<string, ParserError>, tabSize: nat,
                      grammar: string -> Result<seq<Rule>, ParserError>)
    requires ParseSpec(text, tabSize, grammar).Parsed?
    ensures Kind(ParseSpec(text, tabSize, grammar).ast) == ASTKind.Statement
    ensures Children(ParseSpec(text, tabSize, grammar).ast) == []
  {
    var pairs := grammar(Preprocess(text.value, tabSize)).value;
    OnlyEoiSucceeds(pairs);
  }

  /** The parser's configuration: the tab width and the URL of the last
      source that supplied one. */
  class ParserConfig {
    var tabSize: nat
    var fileUrl: Option<string>

    constructor (tabSize: nat, fileUrl: Option<string>)
      ensures this.tabSize == tabSize && this.fileUrl == fileUrl
    {
      this.tabSize := tabSize;
      this.fileUrl := fileUrl;
    }

    /** `ParserConfig::parse`: record the URL if the input has one, obtain
        and preprocess the text, run the grammar, then dispatch. */
    method Parse(input: Source, grammar: string -> Result<seq<Rule>, ParserError>)
      returns (res: ParseOutcome)
      modifies this
      ensures tabSize == old(tabSize)
      ensures fileUrl == if input.url.Some? then input.url else old(fileUrl)
      ensures res == ParseSpec(input.text, tabSize, grammar)
    {
      if input.url.Some? {
        fileUrl := input.url;
      }
      match input.text {
        case Err(e) =>
          return Failed(e);
        case Ok(text) =>
          var normalized := Preprocess(text, tabSize);
          match grammar(normalized) {
            case Err(e) =>
              return Failed(e);
            case Ok(pairs) =>
              res := ParseProgram(pairs);
          }
      }
    }

    /** `ParserConfig::parse_program`: walk the pairs, skipping `EOI`; any
        other rule reaches the debug dispatch, which panics. */
    method ParseProgram(pairs: seq<Rule>) returns (res: ParseOutcome)
      ensures res == ProgramOutcome(pairs)
      ensures res.Parsed? || res.Aborted?
    {
      // Every rule other than EOI panics, so nothing is ever pushed here.
      var codes: seq<AST> := [];
      for i := 0 to |pairs|
        invariant ProgramOutcome(pairs) == ProgramOutcome(pairs[i..])
      {
        if pairs[i] == EOI {
          assert pairs[i..][1..] == pairs[i + 1..];
          continue;
        }
        return Aborted(pairs[i]);
      }
      return Parsed(StatementNode(codes, DefaultRange()));
    }
  }
}
