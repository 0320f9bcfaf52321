/**
 * `Iml_Debug::dumpLogEvents` (`Debug.php`): a table of collected log
 * events, newest first, with an optional heading, laid out as plain lines on
 * the command line and as an HTML table otherwise.
 *
 * The log formatter (`Zend_Log_Formatter_Simple::format`), `strip_tags` and
 * the server API name (`Zend_Debug::getSapi`) belong to code outside this
 * model; they are parameters here. What is echoed is returned as a second
 * result.
 */
module LogDump {
  import opened Wrappers

  /** `PHP_EOL` on a Unix host. */
  const EOL := "\n"

  /** The line template on the command line. */
  const CLI_FORMAT := "%timestamp% %priorityName% (%priority%): %message%"

  /** The table-row template everywhere else. */
  const TABLE_FORMAT := "<tr><td>%timestamp%</td><td>%priorityName% (%priority%)</td><td>%message%</td></tr>"

  /** The first argument: an array of events, or a value of some other type. */
  datatype Argument<E> = EventArray(events: seq<E>) | NotArray(typeName: string)

  /** A character `trim` removes: space, tab, newline, carriage return, NUL and vertical tab. */
  predicate IsBlank(c: char) {
    c == ' ' || c == '\t' || c == '\n' || c == '\r' || c == '\0' || c == '\U{000B}'
  }

  /** `s` without its leading blanks. */
  function TrimStart(s: string): (r: string)
    ensures |r| <= |s| && r == s[|s| - |r|..]
    ensures r == [] || !IsBlank(r[0])
    ensures forall i :: 0 <= i < |s| - |r| ==> IsBlank(s[i])
  {
    if s != [] && IsBlank(s[0]) then TrimStart(s[1..]) else s
  }

  /** `s` without its trailing blanks. */
  function TrimEnd(s: string): (r: string)
    ensures |r| <= |s| && r == s[..|r|]
    ensures r == [] || !IsBlank(r[|r| - 1])
    ensures forall i :: |r| <= i < |s| ==> IsBlank(s[i])
  {
    if s != [] && IsBlank(s[|s| - 1]) then TrimEnd(s[..|s| - 1]) else s
  }

  /**
   * `trim`: the part of `s` between its leading and its trailing blanks;
   * it neither starts nor ends with a blank, and only blanks are dropped.
   */
  function Trim(s: string): (r: string)
    ensures |r| <= |s|
    ensures r == [] || (!IsBlank(r[0]) && !IsBlank(r[|r| - 1]))
  {
    TrimEnd(TrimStart(s))
  }

  /** What `trim` keeps is one stretch `s[i..i + |Trim(s)|]` of `s`; everything before and after it is blank. */
  lemma TrimKeepsMiddle(s: string) returns (i: nat)
    ensures i + |Trim(s)| <= |s| && Trim(s) == s[i..i + |Trim(s)|]
    ensures forall k :: 0 <= k < i ==> IsBlank(s[k])
    ensures forall k :: i + |Trim(s)| <= k < |s| ==> IsBlank(s[k])
  {
    i := |s| - |TrimStart(s)|;
    TrimEndWithin(s, i);
  }

  /** Trimming the end of the tail `s[i..]` keeps a stretch of `s` followed only by blanks. */
  lemma TrimEndWithin(s: string, i: nat)
    requires i <= |s|
    ensures var r := TrimEnd(s[i..]);
      && i + |r| <= |s| && r == s[i..i + |r|]
      && forall k :: i + |r| <= k < |s| ==> IsBlank(s[k])
  {
    var t := s[i..];
    var r := TrimEnd(t);
    assert s[i..][..|r|] == s[i..i + |r|];
    forall k | i + |r| <= k < |s|
      ensures IsBlank(s[k])
    {
      assert s[k] == t[k - i];
    }
  }

  /** Trimming twice is trimming once. */
  lemma TrimIdempotent(s: string)
    ensures Trim(Trim(s)) == Trim(s)
  {
    var r := Trim(s);
    if r != [] {
      assert TrimStart(r) == r;
      assert TrimEnd(r) == r;
    }
  }

  /** `array_reverse`: the same events, last first. */
  function Reverse<E>(s: seq<E>): (r: seq<E>)
    ensures |r| == |s|
    ensures forall i :: 0 <= i < |s| ==> r[i] == s[|s| - 1 - i]
  {
    if s == [] then [] else [s[|s| - 1]] + Reverse(s[..|s| - 1])
  }

  /** Every event formatted with the template `tpl`, each followed by an end of line, in the order given. */
  function Lines<E>(format: (string, E) -> string, tpl: string, es: seq<E>): string {
    if es == [] then "" else Lines(format, tpl, es[..|es| - 1]) + format(tpl, es[|es| - 1]) + EOL
  }

  lemma {:induction false} LinesAppend<E>(format: (string, E) -> string, tpl: string, a: seq<E>, b: seq<E>)
    ensures Lines(format, tpl, a + b) == Lines(format, tpl, a) + Lines(format, tpl, b)
    decreases |b|
  {
    if b == [] {
      assert a + b == a;
    } else {
      var front := b[..|b| - 1];
      assert (a + b)[..|a + b| - 1] == a + front;
      LinesAppend(format, tpl, a, front);
    }
  }

  /**
   * Newest at the top: for any split of the events into older ones `es[..k]`
   * and newer ones `es[k..]`, the lines of all the newer events come before
   * the lines of all the older ones, each part itself newest first.
   */
  lemma NewerLinesFirst<E>(format: (string, E) -> string, tpl: string, es: seq<E>, k: nat)
    requires k <= |es|
    ensures Lines(format, tpl, Reverse(es)) == Lines(format, tpl, Reverse(es[k..])) + Lines(format, tpl, Reverse(es[..k]))
  {
    assert Reverse(es) == Reverse(es[k..]) + Reverse(es[..k]);
    LinesAppend(format, tpl, Reverse(es[k..]), Reverse(es[..k]));
  }

  /** The most recent event's line is the first line of the dump. */
  lemma NewestFirst<E>(format: (string, E) -> string, tpl: string, es: seq<E>)
    requires es != []
    ensures Lines(format, tpl, Reverse(es)) == format(tpl, es[|es| - 1]) + EOL + Lines(format, tpl, Reverse(es[..|es| - 1]))
  {
    var front, last := es[..|es| - 1], es[|es| - 1];
    assert Reverse(es) == [last] + Reverse(front);
    LinesAppend(format, tpl, [last], Reverse(front));
    assert [last][..0] == [];
    assert Lines(format, tpl, [last]) == "" + format(tpl, last) + EOL;
  }

  /** The text in front of the events: the trimmed, tag-free heading and a colon, on a line of its own outside the command line. */
  function HeadingPrefix(heading: Option<string>, sapi: string, stripTags: string -> string): string {
    if heading.None? then ""
    else if sapi != "cli" then Trim(stripTags(heading.value)) + ": " + EOL
    else Trim(stripTags(heading.value)) + ": "
  }

  /** What `dumpLogEvents` returns. */
  function DumpText<E>(arg: Argument<E>, heading: Option<string>, sapi: string,
                       format: (string, E) -> string, stripTags: string -> string): (r: Result<string, string>)
    ensures r.Err? <==> arg.NotArray?
    ensures r.Err? ==> r.error == "Array expected for argument 1, " + arg.typeName + " given"
  {
    if arg.NotArray? then Err("Array expected for argument 1, " + arg.typeName + " given")
    else
      var prefix := HeadingPrefix(heading, sapi, stripTags);
      if sapi == "cli" then Ok(prefix + Lines(format, CLI_FORMAT, Reverse(arg.events)))
      else Ok(prefix + ("<table>" + EOL + Lines(format, TABLE_FORMAT, Reverse(arg.events)) + "</table>" + EOL))
  }

  /**
   * Newest at the top, on the dump itself: with `newest` logged after the
   * `older` events, the dump opens (after the heading and, outside the
   * command line, the table tag) with the newest event's line, followed by
   * the older events' lines.
   */
  lemma DumpNewestOnTop<E>(older: seq<E>, newest: E, heading: Option<string>, sapi: string,
                           format: (string, E) -> string, stripTags: string -> string)
    ensures sapi == "cli" ==>
      DumpText(EventArray(older + [newest]), heading, sapi, format, stripTags)
        == Ok(HeadingPrefix(heading, sapi, stripTags) + (format(CLI_FORMAT, newest) + EOL + Lines(format, CLI_FORMAT, Reverse(older))))
    ensures sapi != "cli" ==>
      DumpText(EventArray(older + [newest]), heading, sapi, format, stripTags)
        == Ok(HeadingPrefix(heading, sapi, stripTags)
              + ("<table>" + EOL + (format(TABLE_FORMAT, newest) + EOL + Lines(format, TABLE_FORMAT, Reverse(older))) + "</table>" + EOL))
  {
    var es := older + [newest];
    assert es[..|es| - 1] == older;
    NewestFirst(format, if sapi == "cli" then CLI_FORMAT else TABLE_FORMAT, es);
  }

  /** Formats the events one after another, as the `foreach` does. */
  method FormatAll<E>(format: (string, E) -> string, tpl: string, es: seq<E>) returns (formatted: string)
    ensures formatted == Lines(format, tpl, es)
  {
    formatted := "";
    for i := 0 to |es|
      invariant formatted == Lines(format, tpl, es[..i])
    {
      assert es[..i + 1][..i] == es[..i];
      formatted := formatted + format(tpl, es[i]) + EOL;
    }
    assert es[..|es|] == es;
  }

  /** `dumpLogEvents`: the dump, and what it echoes (the same text when `echo` is set, nothing otherwise). */
  method DumpLogEvents<E>(arg: Argument<E>, heading: Option<string>, echo: bool, sapi: string,
                          format: (string, E) -> string, stripTags: string -> string)
    returns (r: Result<string, string>, echoed: string)
    ensures r == DumpText(arg, heading, sapi, format, stripTags)
    ensures echoed == if echo && r.Ok? then r.value else ""
  {
    echoed := "";
    if arg.NotArray? {
      return Err("Array expected for argument 1, " + arg.typeName + " given"), echoed;
    }
    var output := if heading.None? then "" else Trim(stripTags(heading.value)) + ": ";
    output := if heading.Some? && sapi != "cli" then output + EOL else output;
    var tpl := if sapi != "cli" then TABLE_FORMAT else CLI_FORMAT;
    var events := Reverse(arg.events);
    var formatted := FormatAll(format, tpl, events);
    output := output + (if sapi == "cli" then formatted else "<table>" + EOL + formatted + "</table>" + EOL);
    if echo {
      echoed := output;
    }
    return Ok(output), echoed;
  }
}
