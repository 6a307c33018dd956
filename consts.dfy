/** The regular expressions and the keyword table of lib/consts.js, each stated
    as the strings it matches (or the match it finds) rather than as a regex. */
module Consts {
  import opened Js
  import opened Strings

  /** `xIsJsFile` (`/\.(?:js|json)$/i`): the length of the `.js` or `.json`
      suffix it matches at the end of `name`, in any ASCII case, or 0 when it
      does not match. */
  function JsExtensionLength(name: string): (k: nat)
    ensures k == 0 || k == 3 || k == 5
    ensures k <= |name|
    ensures k == 3 ==> EqualsIgnoreCase(name[|name| - 3..], ".js")
    ensures k == 5 ==> EqualsIgnoreCase(name[|name| - 5..], ".json")
    ensures k == 0 ==> (&& !(|name| >= 3 && EqualsIgnoreCase(name[|name| - 3..], ".js"))
                        && !(|name| >= 5 && EqualsIgnoreCase(name[|name| - 5..], ".json")))
  {
    if |name| >= 3 && EqualsIgnoreCase(name[|name| - 3..], ".js") then 3
    else if |name| >= 5 && EqualsIgnoreCase(name[|name| - 5..], ".json") then 5
    else 0
  }

  predicate IsJsFile(name: string) {
    JsExtensionLength(name) != 0
  }

  /** `name.replace(xIsJsFile, '')`: a name that `xIsJsFile` does not match
      is kept as it is; otherwise exactly its `.js` or `.json` suffix goes. */
  function StripJsExtension(name: string): (r: string)
    ensures r <= name
    ensures !IsJsFile(name) <==> r == name
    ensures IsJsFile(name) ==> EqualsIgnoreCase(name[|r|..], ".js") || EqualsIgnoreCase(name[|r|..], ".json")
  {
    name[..|name| - JsExtensionLength(name)]
  }

  /** `xQuoted` (`/^(["'])(.*)\1$/`) followed by `exec(text)[2]`: the text
      between a leading quote and the same quote at the end, provided no line
      terminator lies between them. */
  function QuotedInner(text: string): (r: Option<string>)
    ensures r.Some? <==> |text| >= 2 && (text[0] == '"' || text[0] == '\'')
                         && text[|text| - 1] == text[0]
                         && (forall i :: 1 <= i < |text| - 1 ==> !IsLineTerminator(text[i]))
    ensures r.Some? ==> [text[0]] + r.value + [text[0]] == text
  {
    if |text| >= 2 && (text[0] == '"' || text[0] == '\'') && text[|text| - 1] == text[0]
       && (forall i :: 1 <= i < |text| - 1 ==> !IsLineTerminator(text[i]))
    then Some(text[1..|text| - 1])
    else None
  }

  /** `/^<open>.*<close>$/`: `text` starts with `open`, ends with `close` and has
      no line terminator in between. */
  predicate Bracketed(text: string, open: char, close: char) {
    && |text| >= 2 && text[0] == open && text[|text| - 1] == close
    && forall i :: 1 <= i < |text| - 1 ==> !IsLineTerminator(text[i])
  }

  /** `xArray` (`/^\[.*\]$/`). */
  predicate IsJsonArrayText(text: string) {
    Bracketed(text, '[', ']')
  }

  /** `xObject` (`/^\{.*\}$/`). */
  predicate IsJsonObjectText(text: string) {
    Bracketed(text, '{', '}')
  }

  /** `paramDefaultMatchers`: the keyword literals `null`, `undefined`, `true`
      and `false` and the values they stand for. */
  function KeywordValue(text: string): (r: Option<Value>)
    ensures r.Some? <==> text in {"null", "undefined", "true", "false"}
    ensures r == Some(Bool(true)) <==> text == "true"
    ensures r.Some? && r.value.Bool? ==> text in {"true", "false"}
    ensures r.Some? ==> !Truthy(r.value) <==> text != "true"
  {
    if text == "null" then Some(Null)
    else if text == "undefined" then Some(Undefined)
    else if text == "true" then Some(Bool(true))
    else if text == "false" then Some(Bool(false))
    else None
  }

  /** A match of a regular expression: the half-open range `[start, end)`. */
  datatype Span = Span(start: nat, end: nat)

  /** The match of `xPreFunctionParams` (the pattern `\)[\s\S]*`): from the first `)` to
      the end of the text. */
  function PreFunctionParamsMatch(s: string): (r: Option<Span>)
    ensures r.Some? <==> ')' in s
    ensures r.Some? ==> r.value.start == IndexOf(s, ')') && r.value.end == |s|
  {
    var k := IndexOf(s, ')');
    if k == -1 then None else Some(Span(k, |s|))
  }

  /** The match of `xPostFunctionParams` (`/^.*?\(/`): from the start up to and
      including the first `(`, which matches only if no line terminator comes
      before that `(` (the `.` does not cross one). */
  function PostFunctionParamsMatch(s: string): (r: Option<Span>)
    ensures r.Some? <==> '(' in s && forall i :: 0 <= i < IndexOf(s, '(') ==> !IsLineTerminator(s[i])
    ensures r.Some? ==> r.value.start == 0 && r.value.end == IndexOf(s, '(') + 1
  {
    var k := IndexOf(s, '(');
    if k != -1 && forall i :: 0 <= i < k ==> !IsLineTerminator(s[i]) then Some(Span(0, k + 1)) else None
  }
}
