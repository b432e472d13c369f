/** Preparation of the cross-AZ traffic query: the template file is read line
    by line, lines starting with '#' are dropped, and `str.format` fills in the
    three table names and the invocation frequency. */
module QueryTemplate {
  import opened Results
  import Text

  // ---------------------------------------------------------------------------
  // Lines, as iterating over a text file yields them

  /** A line: non-empty, with a newline at most as its last character. */
  predicate IsLine(l: string)
  {
    |l| > 0 && forall j | 0 <= j < |l| - 1 :: l[j] != '\n'
  }

  predicate EndsWithNewline(l: string)
  {
    |l| > 0 && l[|l| - 1] == '\n'
  }

  /** What file iteration can produce: lines, each one but the last ending in a newline. */
  predicate WellFormedLines(ls: seq<string>)
  {
    && (forall i | 0 <= i < |ls| :: IsLine(ls[i]))
    && (forall i | 0 <= i < |ls| - 1 :: EndsWithNewline(ls[i]))
  }

  /** The lines glued back together, as `+=` does. */
  function Concat(ls: seq<string>): string
  {
    if |ls| == 0 then "" else ls[0] + Concat(ls[1..])
  }

  /** `for line in file`: the text cut after every newline; a last line without
      a newline is still a line, and an empty text has no lines. The file is
      opened in text mode, which already turns "\r\n" and a lone "\r" into
      "\n"; `s` is the text after that translation. */
  function Lines(s: string): (r: seq<string>)
    ensures Concat(r) == s
    ensures WellFormedLines(r)
    decreases |s|
  {
    if |s| == 0 then []
    else if s[0] == '\n' then
      var rest := Lines(s[1..]);
      assert (["\n"] + rest)[1..] == rest;
      assert s == "\n" + s[1..];
      ["\n"] + rest
    else
      var rest := Lines(s[1..]);
      if |rest| == 0 then [[s[0]]]
      else
        var r := [[s[0]] + rest[0]] + rest[1..];
        assert r[1..] == rest[1..];
        assert Concat(rest) == rest[0] + Concat(rest[1..]);
        assert s == [s[0]] + s[1..];
        assert forall i | 1 <= i < |r| :: r[i] == rest[i];
        r
  }

  /** A newline-terminated line at the front of a text is its first line. */
  lemma {:induction false} LinesOfTerminatedPrefix(l: string, rest: string)
    requires IsLine(l) && EndsWithNewline(l)
    ensures Lines(l + rest) == [l] + Lines(rest)
    decreases |l|
  {
    var s := l + rest;
    if l[0] == '\n' {
      assert |l| == 1;
      assert s[1..] == rest;
    } else {
      var l' := l[1..];
      assert IsLine(l') by {
        forall j | 0 <= j < |l'| - 1 ensures l'[j] != '\n' { assert l'[j] == l[j + 1]; }
      }
      LinesOfTerminatedPrefix(l', rest);
      assert s[1..] == l' + rest;
      assert [l[0]] + l' == l;
    }
  }

  /** A line without any newline is the whole text's only line. */
  lemma {:induction false} LinesOfUnterminated(l: string)
    requires |l| > 0 && '\n' !in l
    ensures Lines(l) == [l]
    decreases |l|
  {
    assert l[0] != '\n';
    if |l| == 1 {
      assert l[1..] == [];
      assert Lines(l[1..]) == [];
      assert [l[0]] == l;
    } else {
      assert '\n' !in l[1..] by {
        forall j | 0 <= j < |l[1..]| ensures l[1..][j] != '\n' { assert l[1..][j] == l[j + 1]; }
      }
      LinesOfUnterminated(l[1..]);
      assert [l[0]] + l[1..] == l;
    }
  }

  /** Cutting the concatenation of well-formed lines gives back those lines. */
  lemma {:induction false} LinesOfConcat(ls: seq<string>)
    requires WellFormedLines(ls)
    ensures Lines(Concat(ls)) == ls
    decreases |ls|
  {
    if |ls| == 0 {
    } else if |ls| == 1 && !EndsWithNewline(ls[0]) {
      assert Concat(ls) == ls[0];
      assert '\n' !in ls[0] by {
        forall j | 0 <= j < |ls[0]| ensures ls[0][j] != '\n' {
          if j == |ls[0]| - 1 { assert !EndsWithNewline(ls[0]); }
        }
      }
      LinesOfUnterminated(ls[0]);
    } else {
      assert EndsWithNewline(ls[0]);
      assert WellFormedLines(ls[1..]) by {
        assert forall i | 0 <= i < |ls[1..]| :: ls[1..][i] == ls[i + 1];
      }
      LinesOfConcat(ls[1..]);
      LinesOfTerminatedPrefix(ls[0], Concat(ls[1..]));
      assert [ls[0]] + ls[1..] == ls;
    }
  }

  // ---------------------------------------------------------------------------
  // The comment filter

  /** `line.startswith("#")`: an exact first-character test, so a line with
      white space before the '#' is not a comment. */
  predicate IsComment(l: string)
  {
    |l| > 0 && l[0] == '#'
  }

  /** The lines the loop appends, in their original order. */
  function CodeLines(ls: seq<string>): (r: seq<string>)
    ensures forall i | 0 <= i < |r| :: r[i] in ls && !IsComment(r[i])
    ensures forall i | 0 <= i < |ls| :: !IsComment(ls[i]) ==> ls[i] in r
    ensures |r| <= |ls|
    decreases |ls|
  {
    if |ls| == 0 then []
    else
      var rest := CodeLines(ls[1..]);
      assert forall i | 1 <= i < |ls| :: ls[i] == ls[1..][i - 1];
      if IsComment(ls[0]) then rest else [ls[0]] + rest
  }

  /** The filter works line by line, so it keeps the relative order of lines. */
  lemma {:induction false} CodeLinesOfAppend(a: seq<string>, b: seq<string>)
    ensures CodeLines(a + b) == CodeLines(a) + CodeLines(b)
    decreases |a|
  {
    if |a| == 0 {
      assert a + b == b;
    } else {
      assert (a + b)[0] == a[0];
      assert (a + b)[1..] == a[1..] + b;
      CodeLinesOfAppend(a[1..], b);
      if !IsComment(a[0]) {
        assert [a[0]] + (CodeLines(a[1..]) + CodeLines(b)) == ([a[0]] + CodeLines(a[1..])) + CodeLines(b);
      }
    }
  }

  /** Dropping comment lines from file lines leaves file lines. */
  lemma {:induction false} CodeLinesWellFormed(ls: seq<string>)
    requires WellFormedLines(ls)
    ensures WellFormedLines(CodeLines(ls))
    decreases |ls|
  {
    if |ls| > 0 {
      assert WellFormedLines(ls[1..]) by {
        assert forall i | 0 <= i < |ls[1..]| :: ls[1..][i] == ls[i + 1];
      }
      CodeLinesWellFormed(ls[1..]);
      var rest := CodeLines(ls[1..]);
      if !IsComment(ls[0]) {
        var r := [ls[0]] + rest;
        assert forall i | 1 <= i < |r| :: r[i] == rest[i - 1];
        if |rest| > 0 {
          assert |ls| > 1;
          assert EndsWithNewline(ls[0]);
        }
      }
    }
  }

  /** Filtering a second time removes nothing more. */
  lemma {:induction false} CodeLinesIdempotent(ls: seq<string>)
    ensures CodeLines(CodeLines(ls)) == CodeLines(ls)
    decreases |ls|
  {
    if |ls| > 0 {
      CodeLinesIdempotent(ls[1..]);
    }
  }

  /** A line is dropped exactly when its very first character is '#': an
      indented comment, or a '#' after code, stays in the query. */
  lemma CommentTestIsPrefixOnly(l: string)
    ensures CodeLines([l]) == [] <==> |l| > 0 && l[0] == '#'
    ensures CodeLines([l]) != [] ==> CodeLines([l]) == [l]
    ensures CodeLines([" # note\n"]) == [" # note\n"]
  {
    assert [l][1..] == [];
    var indented := " # note\n";
    assert [indented][1..] == [];
  }

  /** The template with its comment lines removed. */
  function StripComments(template: string): (r: string)
    ensures Lines(r) == CodeLines(Lines(template))
  {
    var kept := CodeLines(Lines(template));
    CodeLinesWellFormed(Lines(template));
    LinesOfConcat(kept);
    Concat(kept)
  }

  /** Removing comment lines twice is the same as removing them once. */
  lemma StripCommentsIdempotent(template: string)
    ensures StripComments(StripComments(template)) == StripComments(template)
  {
    var once := StripComments(template);
    CodeLinesIdempotent(Lines(template));
    assert CodeLines(Lines(once)) == CodeLines(Lines(template));
    assert Concat(Lines(once)) == once;
  }

  // ---------------------------------------------------------------------------
  // Named-placeholder substitution

  /** The arguments passed to `format`. */
  datatype QueryParameters = QueryParameters(
    athenaResultsTableName: string,
    podsTableName: string,
    vpcFlowLogsTableName: string,
    invocationFrequencyMinutes: nat)

  /** Why `format` raises: a field that is not one of the four names (KeyError
      or IndexError), or an unmatched brace (ValueError). */
  datatype FormatError = UnknownField(name: string) | UnmatchedBrace

  /** The four keyword arguments' names. */
  predicate IsArgumentName(name: string)
  {
    || name == "athena_results_table_name"
    || name == "pods_table_name"
    || name == "vpc_flow_logs_table_name"
    || name == "invokation_frequency"
  }

  /** The replacement text for a field name, if the name is one of the four. */
  function Lookup(params: QueryParameters, name: string): (r: Option<string>)
    ensures r.Some? <==> IsArgumentName(name)
  {
    if name == "athena_results_table_name" then Some(params.athenaResultsTableName)
    else if name == "pods_table_name" then Some(params.podsTableName)
    else if name == "vpc_flow_logs_table_name" then Some(params.vpcFlowLogsTableName)
    else if name == "invokation_frequency" then Some(Text.NatToString(params.invocationFrequencyMinutes))
    else None
  }

  /** `prefix` followed by a formatted remainder, or the remainder's error. */
  function Prefixed(prefix: string, r: Result<string, FormatError>): Result<string, FormatError>
  {
    match r
    case Ok(s) => Ok(prefix + s)
    case Err(e) => Err(e)
  }

  /** `str.format` with keyword arguments only: `{{` and `}}` stand for single
      braces, `{name}` is replaced by the argument called `name`. */
  function Format(s: string, params: QueryParameters): (r: Result<string, FormatError>)
    ensures Braceless(s) ==> r == Ok(s)
    decreases |s|
  {
    if |s| == 0 then Ok("")
    else if s[0] == '{' then
      if 1 < |s| && s[1] == '{' then Prefixed("{", Format(s[2..], params))
      else
        match Text.FirstIndex(s[1..], '}')
        case None => Err(UnmatchedBrace)
        case Some(k) =>
          var name := s[1..k + 1];
          match Lookup(params, name)
          case None => Err(UnknownField(name))
          case Some(v) => Prefixed(v, Format(s[k + 2..], params))
    else if s[0] == '}' then
      if 1 < |s| && s[1] == '}' then Prefixed("}", Format(s[2..], params))
      else Err(UnmatchedBrace)
    else
      assert Braceless(s) ==> Braceless(s[1..]) by {
        if Braceless(s) {
          forall i | 0 <= i < |s[1..]| ensures s[1..][i] != '{' && s[1..][i] != '}' {
            assert s[1..][i] == s[i + 1];
          }
        }
      }
      assert [s[0]] + s[1..] == s;
      Prefixed([s[0]], Format(s[1..], params))
  }

  /** `__get_formatted_query`: comment lines dropped, then placeholders filled. */
  function PrepareQuery(template: string, params: QueryParameters): (r: Result<string, FormatError>)
    ensures (forall i | 0 <= i < |CodeLines(Lines(template))| :: Braceless(CodeLines(Lines(template))[i]))
            ==> r == Ok(StripComments(template))
  {
    BracelessConcat(CodeLines(Lines(template)));
    Format(StripComments(template), params)
  }

  /** Lines without braces glue into a text without braces. */
  lemma {:induction false} BracelessConcat(ls: seq<string>)
    ensures (forall i | 0 <= i < |ls| :: Braceless(ls[i])) ==> Braceless(Concat(ls))
    decreases |ls|
  {
    if |ls| > 0 && forall i | 0 <= i < |ls| :: Braceless(ls[i]) {
      assert forall i | 0 <= i < |ls[1..]| :: ls[1..][i] == ls[i + 1];
      BracelessConcat(ls[1..]);
      var head, tail := ls[0], Concat(ls[1..]);
      assert Braceless(head);
      forall i | 0 <= i < |head + tail| ensures (head + tail)[i] != '{' && (head + tail)[i] != '}' {
        if i >= |head| { assert (head + tail)[i] == tail[i - |head|]; }
      }
    }
  }

  // ---------------------------------------------------------------------------
  // What substitution does, piece by piece

  predicate Braceless(s: string)
  {
    forall i | 0 <= i < |s| :: s[i] != '{' && s[i] != '}'
  }

  /** A template seen as a sequence of pieces. */
  datatype Piece =
    | Literal(text: string)
    | EscapedOpen
    | EscapedClose
    | Placeholder(name: string)

  /** A piece that formats without error: literal text has no braces and a
      placeholder names one of the four arguments. */
  predicate ValidPiece(p: Piece, params: QueryParameters)
  {
    match p
    case Literal(t) => Braceless(t)
    case Placeholder(n) => Lookup(params, n).Some?
    case _ => true
  }

  /** How a piece is written in the template. */
  function Source(p: Piece): string
  {
    match p
    case Literal(t) => t
    case EscapedOpen => "{{"
    case EscapedClose => "}}"
    case Placeholder(n) => "{" + n + "}"
  }

  /** What a valid piece becomes in the query. */
  function Rendered(p: Piece, params: QueryParameters): string
    requires ValidPiece(p, params)
  {
    match p
    case Literal(t) => t
    case EscapedOpen => "{"
    case EscapedClose => "}"
    case Placeholder(n) => Lookup(params, n).value
  }

  function SourceOf(ps: seq<Piece>): string
  {
    if |ps| == 0 then "" else Source(ps[0]) + SourceOf(ps[1..])
  }

  function RenderedOf(ps: seq<Piece>, params: QueryParameters): string
    requires forall i | 0 <= i < |ps| :: ValidPiece(ps[i], params)
  {
    if |ps| == 0 then "" else Rendered(ps[0], params) + RenderedOf(ps[1..], params)
  }

  /** Text without braces passes through `format` unchanged. */
  lemma {:induction false} FormatLiteralPrefix(t: string, rest: string, params: QueryParameters)
    requires Braceless(t)
    ensures Format(t + rest, params) == Prefixed(t, Format(rest, params))
    decreases |t|
  {
    if |t| == 0 {
      assert t + rest == rest;
      PrefixedEmpty(Format(rest, params));
    } else {
      var s := t + rest;
      assert s[0] == t[0];
      assert s[1..] == t[1..] + rest;
      FormatPlainHead(s, params);
      assert Braceless(t[1..]) by {
        forall i | 0 <= i < |t[1..]| ensures t[1..][i] != '{' && t[1..][i] != '}' {
          assert t[1..][i] == t[i + 1];
        }
      }
      FormatLiteralPrefix(t[1..], rest, params);
      PrefixedTwice([t[0]], t[1..], Format(rest, params));
      assert [t[0]] + t[1..] == t;
    }
  }

  /** A character other than a brace is copied through. */
  lemma FormatPlainHead(s: string, params: QueryParameters)
    requires |s| > 0 && s[0] != '{' && s[0] != '}'
    ensures Format(s, params) == Prefixed([s[0]], Format(s[1..], params))
  {
  }

  lemma PrefixedEmpty(r: Result<string, FormatError>)
    ensures Prefixed("", r) == r
  {
    if r.Ok? { assert "" + r.value == r.value; }
  }

  lemma PrefixedTwice(a: string, b: string, r: Result<string, FormatError>)
    ensures Prefixed(a, Prefixed(b, r)) == Prefixed(a + b, r)
  {
    if r.Ok? { assert a + (b + r.value) == (a + b) + r.value; }
  }

  /** Each of the four names is non-empty and free of braces. */
  lemma KnownNameShape(n: string)
    requires IsArgumentName(n)
    ensures |n| > 0 && Braceless(n)
  {
    if n == "athena_results_table_name" {
      BracelessName("athena_results_table_name");
    } else if n == "pods_table_name" {
      BracelessName("pods_table_name");
    } else if n == "vpc_flow_logs_table_name" {
      BracelessName("vpc_flow_logs_table_name");
    } else {
      BracelessName("invokation_frequency");
    }
  }

  /** A name made of lower-case letters and underscores has no braces. */
  lemma BracelessName(n: string)
    requires forall i | 0 <= i < |n| :: 'a' <= n[i] <= 'z' || n[i] == '_'
    ensures Braceless(n)
  {
  }

  /** The first closing brace of `n + "}" + rest` is the one after `n` when `n` has none. */
  lemma FieldEndsAfterName(n: string, rest: string)
    requires '}' !in n
    ensures Text.FirstIndex(n + "}" + rest, '}') == Some(|n|)
  {
    var s := n + "}" + rest;
    assert s[|n|] == '}';
    forall j | 0 <= j < |n| ensures s[j] != '}' { assert s[j] == n[j]; }
  }

  /** A field `{n}` at the front of a template is looked up by its name `n`,
      which runs up to the first closing brace. */
  lemma FormatFieldPrefix(n: string, rest: string, params: QueryParameters)
    requires '}' !in n && (|n| == 0 || n[0] != '{')
    ensures Format("{" + n + "}" + rest, params) ==
              match Lookup(params, n)
              case None => Err(UnknownField(n))
              case Some(v) => Prefixed(v, Format(rest, params))
  {
    var s := "{" + n + "}" + rest;
    assert s[0] == '{';
    assert s[1..] == n + "}" + rest;
    assert |n| == 0 || s[1] == n[0];
    FieldEndsAfterName(n, rest);
    assert s[1..|n| + 1] == n;
    assert s[|n| + 2..] == rest;
  }

  /** A placeholder for one of the four names is replaced by its argument. */
  lemma FormatPlaceholderPrefix(n: string, rest: string, params: QueryParameters)
    requires Lookup(params, n).Some?
    ensures Format("{" + n + "}" + rest, params) == Prefixed(Lookup(params, n).value, Format(rest, params))
  {
    KnownNameShape(n);
    assert '}' !in n by { assert forall j | 0 <= j < |n| :: n[j] != '}'; }
    assert n[0] != '{';
    FormatFieldPrefix(n, rest, params);
  }

  /** One valid piece at the front of a template is formatted on its own. */
  lemma FormatPiecePrefix(p: Piece, rest: string, params: QueryParameters)
    requires ValidPiece(p, params)
    ensures Format(Source(p) + rest, params) == Prefixed(Rendered(p, params), Format(rest, params))
  {
    match p
    case Literal(t) => FormatLiteralPrefix(t, rest, params);
    case EscapedOpen => assert ("{{" + rest)[2..] == rest;
    case EscapedClose => assert ("}}" + rest)[2..] == rest;
    case Placeholder(n) => FormatPlaceholderPrefix(n, rest, params);
  }

  /** Formatting a template made of valid pieces succeeds and yields exactly
      each piece's rendering, in order: the four placeholders are replaced,
      doubled braces become single ones, and all other text is unchanged. */
  lemma {:induction false} FormatPieces(ps: seq<Piece>, params: QueryParameters)
    requires forall i | 0 <= i < |ps| :: ValidPiece(ps[i], params)
    ensures Format(SourceOf(ps), params) == Ok(RenderedOf(ps, params))
    decreases |ps|
  {
    if |ps| > 0 {
      FormatPieces(ps[1..], params);
      FormatPiecePrefix(ps[0], SourceOf(ps[1..]), params);
    }
  }

  /** A field naming anything but the four arguments makes `format` raise,
      whatever follows it. */
  lemma FormatRejectsUnknownField(t: string, n: string, rest: string, params: QueryParameters)
    requires Braceless(t)
    requires '}' !in n && (|n| == 0 || n[0] != '{')
    requires Lookup(params, n).None?
    ensures Format(t + "{" + n + "}" + rest, params).Err?
  {
    var s := "{" + n + "}" + rest;
    assert t + "{" + n + "}" + rest == t + s;
    FormatLiteralPrefix(t, s, params);
    FormatFieldPrefix(n, rest, params);
  }

  /** A closing brace that is not doubled makes `format` raise. */
  lemma FormatRejectsSingleClose(t: string, rest: string, params: QueryParameters)
    requires Braceless(t)
    requires |rest| == 0 || rest[0] != '}'
    ensures Format(t + "}" + rest, params).Err?
  {
    assert t + "}" + rest == t + ("}" + rest);
    FormatLiteralPrefix(t, "}" + rest, params);
  }

  /** An opening brace with no closing brace anywhere after it makes `format`
      raise. */
  lemma FormatRejectsUnclosedOpen(t: string, rest: string, params: QueryParameters)
    requires Braceless(t)
    requires '}' !in rest && (|rest| == 0 || rest[0] != '{')
    ensures Format(t + "{" + rest, params).Err?
  {
    assert t + "{" + rest == t + ("{" + rest);
    FormatLiteralPrefix(t, "{" + rest, params);
    assert ("{" + rest)[1..] == rest;
  }

  /** The converse of `FormatPieces`: whenever formatting succeeds, the
      template is made of valid pieces and the result is their rendering. So
      a query `format` accepts is the template with `{{` and `}}` undoubled,
      the four placeholders replaced, and nothing else changed. */
  lemma {:induction false} FormatOkIsPieces(s: string, params: QueryParameters)
    requires Format(s, params).Ok?
    ensures exists ps | (forall i | 0 <= i < |ps| :: ValidPiece(ps[i], params)) ::
              SourceOf(ps) == s && RenderedOf(ps, params) == Format(s, params).value
    decreases |s|
  {
    if |s| == 0 {
      var ps: seq<Piece> := [];
      assert SourceOf(ps) == s && RenderedOf(ps, params) == Format(s, params).value;
    } else {
      var p, rest := FormatHead(s, params);
      FormatOkIsPieces(rest, params);
      var ps' :| (forall i | 0 <= i < |ps'| :: ValidPiece(ps'[i], params))
                 && SourceOf(ps') == rest && RenderedOf(ps', params) == Format(rest, params).value;
      ConsPiece(p, ps', params);
      var ps := [p] + ps';
      assert SourceOf(ps) == s && RenderedOf(ps, params) == Format(s, params).value;
    }
  }

  /** The first piece of a template that formats: its source is a prefix of
      the template, and the result is its rendering followed by the rest's. */
  lemma FormatHead(s: string, params: QueryParameters) returns (p: Piece, rest: string)
    requires |s| > 0 && Format(s, params).Ok?
    ensures ValidPiece(p, params)
    ensures s == Source(p) + rest && |rest| < |s|
    ensures Format(s, params) == Prefixed(Rendered(p, params), Format(rest, params))
    ensures Format(rest, params).Ok?
  {
    if s[0] == '{' && 1 < |s| && s[1] == '{' {
      p, rest := EscapedOpen, s[2..];
      assert s == "{{" + s[2..];
    } else if s[0] == '{' {
      p, rest := FormatFieldHead(s, params);
    } else if s[0] == '}' {
      p, rest := EscapedClose, s[2..];
      assert s == "}}" + s[2..];
    } else {
      p, rest := Literal([s[0]]), s[1..];
      FormatPlainHead(s, params);
      assert s == [s[0]] + s[1..];
    }
  }

  /** A template that formats and starts with a single `{` starts with a
      placeholder for one of the four names. */
  lemma FormatFieldHead(s: string, params: QueryParameters) returns (p: Piece, rest: string)
    requires |s| > 0 && s[0] == '{' && !(1 < |s| && s[1] == '{')
    requires Format(s, params).Ok?
    ensures p.Placeholder? && ValidPiece(p, params)
    ensures s == Source(p) + rest && |rest| < |s|
    ensures Format(s, params) == Prefixed(Rendered(p, params), Format(rest, params))
  {
    var k := Text.FirstIndex(s[1..], '}').value;
    var n := s[1..k + 1];
    p, rest := Placeholder(n), s[k + 2..];
    assert s[k + 1] == '}';
    assert s == "{" + n + "}" + rest;
  }

  /** A valid piece in front of valid pieces. */
  lemma ConsPiece(p: Piece, ps: seq<Piece>, params: QueryParameters)
    requires ValidPiece(p, params)
    requires forall i | 0 <= i < |ps| :: ValidPiece(ps[i], params)
    ensures forall i | 0 <= i < |[p] + ps| :: ValidPiece(([p] + ps)[i], params)
    ensures SourceOf([p] + ps) == Source(p) + SourceOf(ps)
    ensures RenderedOf([p] + ps, params) == Rendered(p, params) + RenderedOf(ps, params)
  {
    assert ([p] + ps)[1..] == ps;
  }

  /** The whole preparation: when the lines the filter keeps spell out valid
      pieces, the query is those pieces rendered, whatever the comment lines
      hold. */
  lemma PrepareQueryPieces(template: string, ps: seq<Piece>, params: QueryParameters)
    requires forall i | 0 <= i < |ps| :: ValidPiece(ps[i], params)
    requires Concat(CodeLines(Lines(template))) == SourceOf(ps)
    ensures PrepareQuery(template, params) == Ok(RenderedOf(ps, params))
  {
    assert StripComments(template) == SourceOf(ps);
    FormatPieces(ps, params);
  }

  /** A comment line between two brace-free code lines disappears before
      `format` runs, so braces in it can never make `format` raise. */
  lemma CommentLineIgnored(before: string, comment: string, after: string, params: QueryParameters)
    requires IsLine(before) && EndsWithNewline(before) && !IsComment(before) && Braceless(before)
    requires IsLine(comment) && EndsWithNewline(comment) && IsComment(comment)
    requires |after| > 0 && '\n' !in after && !IsComment(after) && Braceless(after)
    ensures PrepareQuery(before + comment + after, params) == Ok(before + after)
  {
    LinesOfUnterminated(after);
    LinesOfTerminatedPrefix(comment, after);
    LinesOfTerminatedPrefix(before, comment + after);
    assert before + comment + after == before + (comment + after);
    var ls := [before, comment, after];
    assert Lines(before + comment + after) == ls;
    assert ls[1..] == [comment, after] && ls[1..][1..] == [after] && [after][1..] == [];
    assert CodeLines(ls) == [before, after];
    assert [before, after][1..] == [after] && [after][1..] == [];
    assert Concat([before, after]) == before + (after + "");
    assert after + "" == after;
    assert Braceless(before + after) by {
      forall i | 0 <= i < |before + after|
        ensures (before + after)[i] != '{' && (before + after)[i] != '}'
      {
        if i >= |before| { assert (before + after)[i] == after[i - |before|]; }
      }
    }
  }

  /** A placeholder that names no argument raises in a code line, but is
      harmless on a comment line. */
  lemma CommentedUnknownFieldExample(params: QueryParameters)
    ensures Format("SELECT\n#{x}\n1", params).Err?
    ensures PrepareQuery("SELECT\n#{x}\n1", params) == Ok("SELECT\n1")
  {
    var before, comment, after := "SELECT\n", "#{x}\n", "1";
    assert before + comment + after == "SELECT\n#{x}\n1";
    assert before + after == "SELECT\n1";
    CommentLineIgnored(before, comment, after, params);
    assert "SELECT\n#" + "{" + "x" + "}" + "\n1" == "SELECT\n#{x}\n1";
    FormatRejectsUnknownField("SELECT\n#", "x", "\n1", params);
  }

  // ---------------------------------------------------------------------------
  // The deployed configuration

  /** The schedule's rate, `Duration.minutes(60)`, in minutes. */
  const ScheduleMinutes: nat := 60

  /** The table names and the frequency the stack passes in. */
  const DeployedParameters := QueryParameters("athena-results-table", "pods-table", "vpc-flow-logs-table", ScheduleMinutes)

  /** With the deployed configuration the placeholders become the three table
      names and the text `60`. */
  lemma DeployedSubstitution()
    ensures Lookup(DeployedParameters, "athena_results_table_name") == Some("athena-results-table")
    ensures Lookup(DeployedParameters, "pods_table_name") == Some("pods-table")
    ensures Lookup(DeployedParameters, "vpc_flow_logs_table_name") == Some("vpc-flow-logs-table")
    ensures Lookup(DeployedParameters, "invokation_frequency") == Some("60")
  {
    assert 60 / 10 == 6 && 60 % 10 == 0;
    assert Text.NatToString(6) == "6";
    assert Text.NatToString(60) == "60";
  }
}
