/** lib/log.js: the gulp-style time stamp `_getTimeNowString` and the message
    `log` prints and returns. The console is modelled by what `log` hands to
    `console[level]`; the colouring library is a palette of string functions. */
module Log {
  import opened Js
  import opened Strings

  type Hour = n: nat | n < 24
  type Minute = n: nat | n < 60
  type Second = n: nat | n < 60

  /** The fields of a `Date` that `_getTimeNowString` reads: `getHours`,
      `getMinutes` and `getSeconds`, in local time. */
  datatype Date = Date(hours: Hour, minutes: Minute, seconds: Second)

  /** One clock component: `n>9 ? n : '0' + n`. */
  function Pad2(n: nat): (r: string)
    ensures forall i :: 0 <= i < |r| ==> IsDigit(r[i])
    ensures DigitsValue(r) == n
    ensures n < 100 ==> |r| == 2
    ensures n <= 9 ==> r[0] == '0'
  {
    if n > 9 then NatToString(n)
    else
      var t := NatToString(n);
      LeadingZero(t);
      "0" + t
  }

  /** A leading zero does not change the value of a digit string. */
  lemma {:induction false} LeadingZero(s: string)
    requires forall i :: 0 <= i < |s| ==> IsDigit(s[i])
    ensures DigitsValue("0" + s) == DigitsValue(s)
    decreases |s|
  {
    var z := "0" + s;
    if s == [] {
      assert z[..0] == [];
    } else {
      var n := |s| - 1;
      assert z[..|z| - 1] == "0" + s[..n];
      assert z[|z| - 1] == s[n];
      LeadingZero(s[..n]);
    }
  }

  /** `_getTimeNowString(now)`: `hh:mm:ss`. */
  function TimeString(d: Date): string {
    Pad2(d.hours) + ":" + Pad2(d.minutes) + ":" + Pad2(d.seconds)
  }

  /** Reading a time stamp back: two digits, a colon, two digits, a colon,
      two digits, each component in its range. */
  function ParseTime(s: string): (r: Option<Date>)
    ensures r.Some? ==> |s| == 8 && s[2] == ':' && s[5] == ':'
  {
    if |s| == 8 && s[2] == ':' && s[5] == ':'
       && (forall i :: 0 <= i < 8 && i != 2 && i != 5 ==> IsDigit(s[i]))
    then
      assert forall i :: 0 <= i < 2 ==> IsDigit(s[0..2][i]) && IsDigit(s[3..5][i]) && IsDigit(s[6..8][i]) by {
        forall i | 0 <= i < 2 ensures IsDigit(s[0..2][i]) && IsDigit(s[3..5][i]) && IsDigit(s[6..8][i]) {
          assert s[0..2][i] == s[i] && s[3..5][i] == s[3 + i] && s[6..8][i] == s[6 + i];
        }
      }
      var h, m, sec := DigitsValue(s[0..2]), DigitsValue(s[3..5]), DigitsValue(s[6..8]);
      if h < 24 && m < 60 && sec < 60 then Some(Date(h, m, sec)) else None
    else None
  }

  /** The time stamp is eight characters `hh:mm:ss`, and reading it back
      gives the clock it was made from. */
  lemma TimeStringRoundTrip(d: Date)
    ensures |TimeString(d)| == 8
    ensures ParseTime(TimeString(d)) == Some(d)
  {
    var a, b, c := Pad2(d.hours), Pad2(d.minutes), Pad2(d.seconds);
    StampPieces(a, b, c);
  }

  /** Two-digit pieces joined by colons sit at fixed positions. */
  lemma StampPieces(a: string, b: string, c: string)
    requires |a| == 2 && |b| == 2 && |c| == 2
    requires forall i :: 0 <= i < 2 ==> IsDigit(a[i]) && IsDigit(b[i]) && IsDigit(c[i])
    ensures var s := a + ":" + b + ":" + c;
            && |s| == 8 && s[2] == ':' && s[5] == ':'
            && (forall i :: 0 <= i < 8 && i != 2 && i != 5 ==> IsDigit(s[i]))
            && s[0..2] == a && s[3..5] == b && s[6..8] == c
  {
    var s := a + ":" + b + ":" + c;
    assert s == a + [':'] + b + [':'] + c;
    forall i | 0 <= i < 8 && i != 2 && i != 5 ensures IsDigit(s[i]) {
      if i < 2 { assert s[i] == a[i]; }
      else if i < 5 { assert s[i] == b[i - 3]; }
      else { assert s[i] == c[i - 6]; }
    }
  }

  /** Different clock readings give different stamps. */
  lemma TimeStringInjective(d1: Date, d2: Date)
    requires TimeString(d1) == TimeString(d2)
    ensures d1 == d2
  {
    TimeStringRoundTrip(d1);
    TimeStringRoundTrip(d2);
  }

  /** The `now` argument of `log`: a `Date` (what `isDate` recognises), or
      any other value, which is used as it is; only strings are modelled. */
  datatype When = At(date: Date) | Given(text: string)

  /** `isDate(now) ? _getTimeNowString(now) : now`. */
  function Stamp(now: When): string {
    match now
    case At(d) => TimeString(d)
    case Given(t) => t
  }

  /** The two flags of `argv` that `log` reads: `silent` (absent reads as
      `undefined`) and `color`, which is `None` when `argv` has no own property
      of that name. */
  datatype Argv = Argv(silent: Value, color: Option<Value>)

  /** `!argv.hasOwnProperty('color') || !!argv.color`. */
  predicate Coloured(argv: Argv) {
    argv.color.None? || Truthy(argv.color.value)
  }

  /** The colouring functions of turbocolor that `log` calls. */
  datatype Palette = Palette(white: string -> string, gray: string -> string, magenta: string -> string)

  /** What is handed to the console: the method name and the message. */
  datatype Line = Line(level: string, text: string)

  /** What one call of `log` does: the line printed, if any, and the string
      returned. */
  datatype Output = Output(printed: Option<Line>, returned: string)

  /** The message of lib/log.js:39 (plain) or lib/log.js:34-35 (coloured). */
  function Message(name: string, details: string, stamp: string, coloured: bool, palette: Palette): string {
    if coloured then
      Trim(palette.white("[") + palette.gray(stamp) + palette.white("]") + " " + palette.white(name) + " " + palette.magenta(details))
    else
      Trim("[" + stamp + "] " + name + " " + details)
  }

  /** `log(name, details, level, now)`; `console` is the set of method names
      the console object has. Calling a missing one is a `TypeError`. */
  function Log(name: string, details: string, level: string, now: When, argv: Argv, palette: Palette, console: set<string>): (r: Result<Output>)
    ensures Truthy(argv.silent) ==> r == Ok(Output(None, ""))
    ensures !Truthy(argv.silent) ==> (r.Ok? <==> level in console)
    ensures r.Err? ==> r.error == TypeError
    ensures r.Ok? && !Truthy(argv.silent) ==>
              r.value.printed == Some(Line(level, r.value.returned))
              && r.value.returned == Message(name, details, Stamp(now), Coloured(argv), palette)
  {
    if Truthy(argv.silent) then Ok(Output(None, ""))
    else
      var message := Message(name, details, Stamp(now), Coloured(argv), palette);
      if level in console then Ok(Output(Some(Line(level, message)), message)) else Err(TypeError)
  }

  /** Trimming a text that starts with a non-blank character and is a
      non-blank-ended core followed by white space gives the core. */
  lemma TrimTrailing(s: string, core: string)
    requires core != [] && |core| <= |s| && s[..|core|] == core
    requires !IsWhitespace(s[0]) && !IsWhitespace(core[|core| - 1])
    requires forall i :: |core| <= i < |s| ==> IsWhitespace(s[i])
    ensures Trim(s) == core
  {
    TrimSpec(s);
  }

  /** In plain mode the message is `[stamp] name details`; only white space at
      its end is trimmed away. */
  lemma PlainMessage(name: string, details: string, stamp: string, palette: Palette)
    requires details != [] && !IsWhitespace(details[|details| - 1])
    ensures Message(name, details, stamp, false, palette) == "[" + stamp + "] " + name + " " + details
  {
    var s := "[" + stamp + "] " + name + " " + details;
    assert s[0] == '[' && s[|s| - 1] == details[|details| - 1];
    TrimTrailing(s, s);
  }

  /** Without details the trailing space goes: the message is `[stamp] name`. */
  lemma PlainMessageWithoutDetails(name: string, stamp: string, palette: Palette)
    requires name != [] && !IsWhitespace(name[|name| - 1])
    ensures Message(name, "", stamp, false, palette) == "[" + stamp + "] " + name
  {
    var core := "[" + stamp + "] " + name;
    var s := core + " " + "";
    assert s == core + [' '];
    assert s[..|core|] == core && core[0] == '[' && core[|core| - 1] == name[|name| - 1];
    TrimTrailing(s, core);
  }
}
