/** lib/util.js: the ordered replace pipeline `replaceSequence`, the
    parameter-list extraction `getParameters` built from it, and
    `parseParameters`, which names a function's parameters and classifies
    their default values. */
module Util {
  import opened Js
  import opened Strings
  import opened Consts

  /** What a `replace` searches for: a plain string (its first occurrence), or
      one of the two regular expressions of lib/consts.js that `getParameters`
      uses. */
  datatype Pattern = Text(text: string) | PreFunctionParams | PostFunctionParams

  /** One `[search, replacement]` pair of a replace sequence; a missing
      replacement is `None`. */
  datatype Operation = Operation(search: Pattern, replacement: Option<string>)

  /** The first match of `p` in `s`, if any. */
  function FirstMatch(p: Pattern, s: string): (r: Option<Span>)
    ensures r.Some? ==> r.value.start <= r.value.end <= |s|
    ensures p.Text? ==> (r.Some? <==> Find(s, p.text) != -1)
    ensures p.Text? && r.Some? ==> r.value.start == Find(s, p.text) && r.value.end == r.value.start + |p.text|
  {
    match p
    case Text(t) =>
      var k := Find(s, t);
      if k == -1 then None else Some(Span(k, k + |t|))
    case PreFunctionParams => PreFunctionParamsMatch(s)
    case PostFunctionParams => PostFunctionParamsMatch(s)
  }

  /** `operation[1] || ''`. */
  function ReplacementText(op: Operation): string {
    match op.replacement
    case Some(t) => t
    case None => ""
  }

  /** `s.replace(operation[0], operation[1] || '')`: only the first match is
      replaced (replacement patterns such as `$&` are not interpreted). */
  function ReplaceFirst(s: string, op: Operation): string {
    match FirstMatch(op.search, s)
    case None => s
    case Some(m) => s[..m.start] + ReplacementText(op) + s[m.end..]
  }

  /** A plain-string search replaces exactly its first occurrence: the text
      before it has no occurrence, the text after it is kept as it was. */
  lemma ReplaceFirstText(s: string, t: string, rep: Option<string>)
    requires Find(s, t) != -1
    ensures var k := Find(s, t);
            && ReplaceFirst(s, Operation(Text(t), rep)) == s[..k] + ReplacementText(Operation(Text(t), rep)) + s[k + |t|..]
            && s[k..k + |t|] == t
            && forall j :: 0 <= j < k ==> !OccursAt(s, t, j)
  {
  }

  /** The operations applied one after the other, first to last. */
  function ApplyAll(s: string, ops: seq<Operation>): string
    decreases |ops|
  {
    if ops == [] then s else ApplyAll(ReplaceFirst(s, ops[0]), ops[1..])
  }

  /** Running two sequences back to back is running their concatenation: the
      pairs are applied strictly in order. */
  lemma {:induction false} ApplyAllConcat(s: string, a: seq<Operation>, b: seq<Operation>)
    ensures ApplyAll(s, a + b) == ApplyAll(ApplyAll(s, a), b)
    decreases |a|
  {
    if a != [] {
      assert (a + b)[0] == a[0];
      assert (a + b)[1..] == a[1..] + b;
      ApplyAllConcat(ReplaceFirst(s, a[0]), a[1..], b);
    } else {
      assert a + b == b;
    }
  }

  /** `replaceSequence(txt, sequence)`: the loop that updates `_txt` once per
      pair; the result is the pairs applied in order. */
  method ReplaceSequence(txt: string, sequence: seq<Operation>) returns (r: string)
    ensures r == ApplyAll(txt, sequence)
  {
    r := txt;
    for i := 0 to |sequence|
      invariant r == ApplyAll(txt, sequence[..i])
    {
      ApplyAllConcat(txt, sequence[..i], [sequence[i]]);
      assert sequence[..i + 1] == sequence[..i] + [sequence[i]];
      r := ReplaceFirst(r, sequence[i]);
    }
    assert sequence[..|sequence|] == sequence;
  }

  /** `replaceSequence(sequence)` without a text: a replacer that applies the
      pairs in order to whatever text it is given. */
  function Replacer(sequence: seq<Operation>): (f: string -> string)
    ensures forall t :: f(t) == ApplyAll(t, sequence)
  {
    t => ApplyAll(t, sequence)
  }

  /** A replacer for no pairs leaves text as it is, one for a single pair
      replaces that pair's first match, and the replacer for two sequences
      back to back is the first replacer followed by the second. */
  lemma ReplacerComposes(a: seq<Operation>, b: seq<Operation>, op: Operation, t: string)
    ensures Replacer([])(t) == t
    ensures Replacer([op])(t) == ReplaceFirst(t, op)
    ensures Replacer(a + b)(t) == Replacer(b)(Replacer(a)(t))
  {
    assert ApplyAll(ReplaceFirst(t, op), [op][1..]) == ReplaceFirst(t, op);
    ApplyAllConcat(t, a, b);
  }

  /** The sequence behind `getParameters` (lib/util.js:7): drop everything from
      the first `)` on, then everything up to and including the first `(`. */
  const GetParametersSequence: seq<Operation> :=
    [Operation(PreFunctionParams, None), Operation(PostFunctionParams, None)]

  /** `getParameters(source)`: the text of the parameter list. */
  function GetParameters(source: string): string {
    Replacer(GetParametersSequence)(source)
  }

  /** For a source `head(params)tail` whose head has no parenthesis and no line
      break, and whose parameter text has no `)`, `getParameters` yields exactly
      the parameter text; `function(size=10){...}` gives `size=10`. */
  lemma GetParametersIsolates(head: string, params: string, tail: string)
    requires '(' !in head && ')' !in head && forall i :: 0 <= i < |head| ==> !IsLineTerminator(head[i])
    requires ')' !in params
    ensures GetParameters(head + "(" + params + ")" + tail) == params
  {
    var t := head + "(" + params;
    assert ')' !in t;
    GetParametersSteps(t + ")" + tail);
    DropFromClose(t, tail);
    DropToOpen(head, params);
  }

  /** When the text before the first `)` has no `(` that the `^.*?\(` step
      reaches, `getParameters` only drops the text from that `)` on. */
  lemma GetParametersUnopened(t: string, tail: string)
    requires ')' !in t && PostFunctionParamsMatch(t).None?
    ensures GetParameters(t + ")" + tail) == t
  {
    GetParametersSteps(t + ")" + tail);
    DropFromClose(t, tail);
  }

  /** `getParameters` is its two replacements, one after the other. */
  lemma GetParametersSteps(src: string)
    ensures GetParameters(src) ==
            ReplaceFirst(ReplaceFirst(src, Operation(PreFunctionParams, None)), Operation(PostFunctionParams, None))
  {
    assert GetParametersSequence[1..][1..] == [];
  }

  /** The first step drops the first `)` and everything after it. */
  lemma DropFromClose(t: string, tail: string)
    requires ')' !in t
    ensures ReplaceFirst(t + ")" + tail, Operation(PreFunctionParams, None)) == t
  {
    var src := t + ")" + tail;
    assert src[..|t|] == t;
    assert IndexOf(src, ')') == |t| by {
      assert src[|t|] == ')';
    }
  }

  /** The second step drops a first line's text up to and including its
      first `(`. */
  lemma DropToOpen(head: string, rest: string)
    requires '(' !in head && forall i :: 0 <= i < |head| ==> !IsLineTerminator(head[i])
    ensures ReplaceFirst(head + "(" + rest, Operation(PostFunctionParams, None)) == rest
  {
    var src := head + "(" + rest;
    assert src[..|head|] == head;
    assert IndexOf(src, '(') == |head| by {
      assert src[|head|] == '(';
    }
    assert src[|head| + 1..] == rest;
  }

  /** A line break before the first `(` stops the `^.*?\(` step. */
  lemma BreakBeforeOpen(t: string, j: nat)
    requires '(' in t && j < IndexOf(t, '(') && IsLineTerminator(t[j])
    ensures PostFunctionParamsMatch(t).None?
  {
  }

  /** The number of decimal digits in `s` from position `i` on. */
  function DigitRun(s: string, i: nat): (n: nat)
    ensures i + n <= |s| || (i >= |s| && n == 0)
    ensures forall j :: i <= j < i + n ==> IsDigit(s[j])
    ensures i + n < |s| ==> !IsDigit(s[i + n])
    decreases |s| - i
  {
    if i < |s| && IsDigit(s[i]) then 1 + DigitRun(s, i + 1) else 0
  }

  predicate IsSign(c: char) {
    c == '+' || c == '-'
  }

  /** The index after an optional leading sign. */
  function SignLength(s: string): nat {
    if |s| > 0 && IsSign(s[0]) then 1 else 0
  }

  /** An exponent part `e`/`E`, an optional sign, then at least one digit, up to
      the end of the text. */
  predicate IsExponentPart(s: string, i: nat) {
    && i < |s| && (s[i] == 'e' || s[i] == 'E')
    && var j := if i + 1 < |s| && IsSign(s[i + 1]) then i + 2 else i + 1;
       j < |s| && j + DigitRun(s, j) == |s|
  }

  /** A decimal literal as `Number` reads one: an optional sign, digits
      with an optional fraction (at least one digit in all), then an optional
      exponent. */
  predicate IsDecimalLiteral(s: string) {
    var i := SignLength(s);
    var a := DigitRun(s, i);
    var j := i + a;
    var hasPoint := j < |s| && s[j] == '.';
    var b := if hasPoint then DigitRun(s, j + 1) else 0;
    var k := if hasPoint then j + 1 + b else j;
    (a > 0 || b > 0) && (k == |s| || IsExponentPart(s, k))
  }

  predicate IsBaseDigit(c: char, base: char) {
    if base == 'x' || base == 'X' then IsDigit(c) || 'a' <= c <= 'f' || 'A' <= c <= 'F'
    else if base == 'o' || base == 'O' then '0' <= c <= '7'
    else c == '0' || c == '1'
  }

  /** `0x`, `0o` or `0b` (either case) followed by at least one digit of that base. */
  predicate IsNonDecimalIntegerLiteral(s: string) {
    && |s| >= 3 && s[0] == '0' && s[1] in "xXoObB"
    && forall i :: 2 <= i < |s| ==> IsBaseDigit(s[i], s[1])
  }

  /** `isNumeric` (lib/util.js:35-37) on trimmed, non-empty text: `parseFloat`
      finds a number and `Number(text)` is not `NaN`. Both hold exactly for the
      decimal literals and for the hexadecimal, octal and binary integer
      literals (where `parseFloat` reads the leading `0`). The overflow of a
      literal such as `1e400` to `Infinity`, which `isFinite` rejects, is not
      modelled. */
  predicate IsNumeric(s: string) {
    IsDecimalLiteral(s) || IsNonDecimalIntegerLiteral(s)
  }

  /** `parseInt(text, 10)` on numeric text: the optional sign and the leading
      run of decimal digits; whatever follows the run is ignored. */
  function ParseIntBase10(s: string): int {
    var i := SignLength(s);
    var v: int := DigitsValue(s[i..i + DigitRun(s, i)]);
    if i == 1 && s[0] == '-' then -v else v
  }

  /** The fallback a default-value expression becomes. `Quoted` stands for the
      provider `()=>()=>text` (a provider of a provider of the quoted text),
      every other kind for a provider of its value; `Float` keeps the text
      `parseFloat` reads and `Json` the text `JSON.parse` reads when the
      provider is called. */
  datatype Default =
    | Quoted(text: string)
    | Keyword(keyword: Value)
    | Integer(number: int)
    | Float(text: string)
    | Json(text: string)
    | Raw(text: string)

  /** The chain of tests of lib/util.js:80-98, in order. */
  function ClassifyDefault(text: string): Default
    requires text != ""
  {
    match QuotedInner(text)
    case Some(inner) => Quoted(inner)
    case None =>
      match KeywordValue(text)
      case Some(v) => Keyword(v)
      case None =>
        if IsNumeric(text) then
          (if '.' in text then Float(text) else Integer(ParseIntBase10(text)))
        else if IsJsonArrayText(text) || IsJsonObjectText(text) then Json(text)
        else Raw(text)
  }

  /** The tests never overlap (quotes, keyword letters, numerals and brackets
      have different first characters), so each kind is decided by its own test
      alone, whatever its place in the chain. */
  lemma ClassificationUnambiguous(text: string)
    requires text != ""
    ensures var d := ClassifyDefault(text);
            && (d.Quoted? ==> [text[0]] + d.text + [text[0]] == text)
            && (d.Keyword? ==> KeywordValue(text) == Some(d.keyword))
            && (d.Float? ==> d.text == text)
            && (d.Integer? ==> d.number == ParseIntBase10(text))
            && (d.Json? || d.Raw? ==> d.text == text)
    ensures ClassifyDefault(text).Quoted? <==> QuotedInner(text).Some?
    ensures ClassifyDefault(text).Keyword? <==> KeywordValue(text).Some?
    ensures ClassifyDefault(text).Integer? <==> IsNumeric(text) && '.' !in text
    ensures ClassifyDefault(text).Float? <==> IsNumeric(text) && '.' in text
    ensures ClassifyDefault(text).Json? <==> IsJsonArrayText(text) || IsJsonObjectText(text)
    ensures ClassifyDefault(text).Raw? <==>
              && QuotedInner(text).None? && KeywordValue(text).None? && !IsNumeric(text)
              && !IsJsonArrayText(text) && !IsJsonObjectText(text)
  {
    if KeywordValue(text).Some? {
      KeywordExcludesOthers(text);
    } else if IsNumeric(text) {
      NumeralExcludesOthers(text);
    }
  }

  /** A keyword is no quoted string, numeral or bracketed text. */
  lemma KeywordExcludesOthers(text: string)
    requires KeywordValue(text).Some?
    ensures QuotedInner(text).None? && !IsNumeric(text)
    ensures !IsJsonArrayText(text) && !IsJsonObjectText(text)
  {
    assert text[0] in "nutf";
    if IsNumeric(text) {
      NumeralStart(text);
    }
  }

  /** A numeral is no quoted string and no bracketed text. */
  lemma NumeralExcludesOthers(text: string)
    requires IsNumeric(text)
    ensures QuotedInner(text).None? && !IsJsonArrayText(text) && !IsJsonObjectText(text)
  {
    NumeralStart(text);
    var c := text[0];
    assert IsSign(c) || IsDigit(c) || c == '.';
  }

  /** A numeral starts with a sign, a digit or a decimal point. */
  lemma NumeralStart(s: string)
    requires IsNumeric(s)
    ensures |s| > 0 && (IsSign(s[0]) || IsDigit(s[0]) || s[0] == '.')
  {
    if !IsNonDecimalIntegerLiteral(s) && SignLength(s) == 0 {
      if DigitRun(s, 0) == 0 {
        assert |s| > 0 && s[0] == '.';
      }
    }
  }

  /** `parseInt(text, 10)` stops at the exponent: a default written `1e3` gets
      the integer 1, not 1000. */
  lemma ExponentDefaultIsTruncated()
    ensures ClassifyDefault("1e3") == Integer(1)
  {
    ExponentTextIsNoLiteral();
    ExponentTextIsNumeric();
  }

  lemma ExponentTextIsNoLiteral()
    ensures QuotedInner("1e3").None? && KeywordValue("1e3").None?
  {
    var s := "1e3";
    assert s[0] == '1';
    assert s != "null" && s != "undefined" && s != "true" && s != "false";
  }

  lemma ExponentTextIsNumeric()
    ensures IsNumeric("1e3") && '.' !in "1e3" && ParseIntBase10("1e3") == 1
  {
    ExponentTextRuns();
    var s := "1e3";
    assert IsExponentPart(s, 1);
    assert s[0..1] == "1";
    assert DigitsValue("1") == 1 by { assert "1"[..0] == ""; }
  }

  lemma ExponentTextRuns()
    ensures SignLength("1e3") == 0 && DigitRun("1e3", 0) == 1 && DigitRun("1e3", 2) == 1
  {
    var s := "1e3";
    assert s[0] == '1' && s[1] == 'e' && s[2] == '3';
    assert DigitRun(s, 1) == 0;
    assert DigitRun(s, 3) == 0;
  }

  /** The comma-separated pieces of the parameter list. */
  function Pieces(source: string): (r: seq<string>)
    ensures |r| >= 1
  {
    Split(GetParameters(source), ',')
  }

  /** The parameter name of a piece: `param.split('=')` on the trimmed piece,
      first part, trimmed. */
  function ParamName(piece: string): string {
    Trim(Split(Trim(piece), '=')[0])
  }

  /** The default text of a piece: its second `=`-part, trimmed; `""` when there
      is none (`undefined` and `''` are both falsy). Parts after the second
      are ignored. */
  function DefaultText(piece: string): string {
    var parts := Split(Trim(piece), '=');
    if |parts| >= 2 then Trim(parts[1]) else ""
  }

  /** For a piece `name = default = more` only the middle part is the default,
      and the name is the trimmed text before the first `=`. */
  lemma {:induction false} DefaultTextBetween(name: string, default: string, more: string)
    requires '=' !in name && '=' !in default && '=' !in more
    requires Trim(name + "=" + default + "=" + more) == name + "=" + default + "=" + more
    ensures ParamName(name + "=" + default + "=" + more) == Trim(name)
    ensures DefaultText(name + "=" + default + "=" + more) == Trim(default)
  {
    var piece := name + "=" + default + "=" + more;
    var parts := [name, default, more];
    assert Join(parts, '=') == piece by {
      assert Join(parts[1..], '=') == default + "=" + more by {
        assert parts[1..][1..] == [more];
      }
    }
    SplitJoin(parts, '=');
  }

  /** A piece reduced to what `parseParameters` keeps of it. */
  datatype Piece = Piece(name: string, fallback: Option<Default>)

  /** The name of a piece and, when its default text is not empty, the
      classification of that text. */
  function ParsePiece(piece: string): Piece {
    var text := DefaultText(piece);
    Piece(ParamName(piece), if text != "" then Some(ClassifyDefault(text)) else None)
  }

  /** Each piece parsed by `parse`, in order. */
  function ParseAll(pieces: seq<string>, parse: string -> Piece): (ps: seq<Piece>)
    ensures |ps| == |pieces|
  {
    seq(|pieces|, i requires 0 <= i < |pieces| => parse(pieces[i]))
  }

  /** The names of parsed pieces, in order. */
  function NamesOf(ps: seq<Piece>): (names: seq<string>)
    ensures |names| == |ps|
  {
    seq(|ps|, i requires 0 <= i < |ps| => ps[i].name)
  }

  /** The pieces of the parameter list of `source`, parsed, in source order. */
  function ParsedPieces(source: string): (ps: seq<Piece>)
    ensures |ps| == |Pieces(source)|
  {
    ParseAll(Pieces(source), ParsePiece)
  }

  /** The parameter names in source order, one per piece. */
  function ParamNames(source: string): (names: seq<string>)
    ensures |names| == |Pieces(source)|
  {
    NamesOf(ParsedPieces(source))
  }

  /** The `i`-th name is the name of the `i`-th piece. */
  lemma ParamNameAt(source: string, i: nat)
    requires i < |Pieces(source)|
    ensures ParsedPieces(source)[i] == ParsePiece(Pieces(source)[i])
    ensures ParamNames(source)[i] == ParamName(Pieces(source)[i])
  {
  }

  /** An empty parameter list yields the single name `''`. */
  lemma EmptyParameterList(source: string)
    requires GetParameters(source) == ""
    ensures ParamNames(source) == [""]
  {
    assert IndexOf("", ',') == -1;
    assert Pieces(source) == [""];
    ParamNameAt(source, 0);
    assert Trim("") == "";
    assert Split("", '=') == [""];
  }

  /** The names contain neither separator and carry no surrounding white space. */
  lemma NamesAreClean(source: string, i: nat)
    requires i < |ParamNames(source)|
    ensures var n := ParamNames(source)[i];
            && ',' !in n && '=' !in n
            && (n == [] || (!IsWhitespace(n[0]) && !IsWhitespace(n[|n| - 1])))
  {
    var piece := Pieces(source)[i];
    ParamNameAt(source, i);
    var parts := Split(Trim(piece), '=');
    var n := Trim(parts[0]);
    SplitOmits(GetParameters(source), ',', ',');
    assert ',' !in piece;
    TrimOmits(piece, ',');
    SplitOmits(Trim(piece), '=', '=');
    SplitOmits(Trim(piece), '=', ',');
    TrimOmits(parts[0], ',');
    TrimOmits(parts[0], '=');
    TrimSpec(parts[0]);
  }

  /** The defaults map after the pieces are visited in order: a piece with a
      fallback sets its name, later pieces overwriting earlier ones. */
  function DefaultsOf(ps: seq<Piece>): map<string, Default>
    decreases |ps|
  {
    if ps == [] then map[]
    else
      var last := ps[|ps| - 1];
      var m := DefaultsOf(ps[..|ps| - 1]);
      if last.fallback.Some? then m[last.name := last.fallback.value] else m
  }

  /** A name has a fallback exactly when some piece with that name has one. */
  lemma {:induction false} DefaultsOfDomain(ps: seq<Piece>, name: string)
    ensures name in DefaultsOf(ps) <==>
            exists i :: 0 <= i < |ps| && ps[i].name == name && ps[i].fallback.Some?
    decreases |ps|
  {
    if ps != [] {
      var n := |ps| - 1;
      DefaultsOfDomain(ps[..n], name);
      assert forall i :: 0 <= i < n ==> ps[..n][i] == ps[i];
    }
  }

  /** The fallback of a name is the one of the last piece that names it with a
      fallback. */
  lemma {:induction false} DefaultsOfLast(ps: seq<Piece>, i: nat)
    requires i < |ps| && ps[i].fallback.Some?
    requires forall j :: i < j < |ps| ==> ps[j].name != ps[i].name || ps[j].fallback.None?
    ensures ps[i].name in DefaultsOf(ps)
    ensures DefaultsOf(ps)[ps[i].name] == ps[i].fallback.value
    decreases |ps|
  {
    var n := |ps| - 1;
    if i < n {
      var front := ps[..n];
      assert front[i] == ps[i];
      assert forall j :: i < j < n ==> front[j] == ps[j];
      DefaultsOfLast(front, i);
    }
  }

  /** What `parseParameters` returns: the name array and, attached to it as its
      `defaults` property, the map of fallbacks. */
  datatype Parameters = Parameters(names: seq<string>, defaults: map<string, Default>)

  /** One more piece either leaves the defaults as they were or sets its name. */
  lemma DefaultsOfStep(ps: seq<Piece>, i: nat)
    requires i < |ps|
    ensures DefaultsOf(ps[..i + 1]) ==
            if ps[i].fallback.Some? then DefaultsOf(ps[..i])[ps[i].name := ps[i].fallback.value]
            else DefaultsOf(ps[..i])
  {
    assert ps[..i + 1][..i] == ps[..i];
    assert ps[..i + 1][i] == ps[i];
  }

  /** `parseParameters(source)`: the pieces of the parameter list, then one
      pass over them. */
  method ParseParameters(source: string) returns (p: Parameters)
    ensures p.names == ParamNames(source)
    ensures p.defaults == DefaultsOf(ParsedPieces(source))
  {
    var pieces := Split(GetParameters(source), ',');
    p := CollectParameters(pieces, ParsePiece);
  }

  /** The loop of `parseParameters`, with the reading of one piece as `parse`:
      it collects the names and fills the defaults map with `set`. */
  method CollectParameters(pieces: seq<string>, parse: string -> Piece) returns (p: Parameters)
    ensures p.names == NamesOf(ParseAll(pieces, parse))
    ensures p.defaults == DefaultsOf(ParseAll(pieces, parse))
  {
    ghost var ps := ParseAll(pieces, parse);
    var names := [];
    var defaults := map[];
    for i := 0 to |pieces|
      invariant |names| == i && forall k :: 0 <= k < i ==> names[k] == ps[k].name
      invariant defaults == DefaultsOf(ps[..i])
    {
      var piece := parse(pieces[i]);
      assert piece == ps[i];
      DefaultsOfStep(ps, i);
      if piece.fallback.Some? {
        defaults := defaults[piece.name := piece.fallback.value];
      }
      names := names + [piece.name];
    }
    assert ps[..|ps|] == ps;
    p := Parameters(names, defaults);
  }
}
