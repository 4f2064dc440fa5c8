/**
 * The task-id part of the configuration integrator: inserting a task before the manager, bumping the
 * two counters, and re-aligning the enum. A line that one of the tool's patterns matches is kept as
 * its matched groups; any other line is kept as text.
 */
module ConfigIds {
  import opened Lists

  /** The macro names the tool looks for; nothing below depends on how they are spelled. */
  datatype Macros = Macros(prefix: string, manager: string, mux: string)

  const THREAD_IDS := Macros("CONFIG_THREAD_ID_", "MANAGER", "MUX_NUMBER")

  datatype Line =
    /** indent CONFIG_THREAD_ID_name pad = mid digits post , suffix */
    | Enum(indent: string, name: string, pad: string, mid: string, digits: string, post: string, suffix: string)
    /** #define gap1 CONFIG_THREAD_ID_name gap2 digits tail */
    | Define(gap1: string, name: string, gap2: string, digits: string, tail: string)
    | Other(text: string)

  datatype Outcome = Done(lines: seq<Line>) | NotFound

  // ---- Decimal numbers ----

  predicate IsDigit(ch: char) { '0' <= ch <= '9' }

  function Digit(ch: char): nat { if IsDigit(ch) then ch as int - '0' as int else 0 }

  /** int(s) for the \d+ group of a matched line. */
  function Value(s: string): nat {
    if s == "" then 0 else 10 * Value(s[..|s| - 1]) + Digit(s[|s| - 1])
  }

  function Decimal(n: nat): (s: string)
    ensures s != "" && (forall i :: 0 <= i < |s| ==> IsDigit(s[i]))
    ensures Value(s) == n
  {
    var d := ['0' + (n % 10) as char];
    if n < 10 then
      assert d[..0] == "";
      d
    else
      var s := Decimal(n / 10) + d;
      assert s[..|s| - 1] == Decimal(n / 10);
      s
  }

  // ---- Text ----

  /** What a matched line shows before its macro, and after it. */
  function Before(l: Line): string
    requires !l.Other?
  {
    if l.Enum? then l.indent else "#define" + l.gap1
  }

  function After(l: Line): string
    requires !l.Other?
  {
    if l.Enum? then l.pad + "=" + l.mid + l.digits + l.post + "," + l.suffix + "\n"
    else l.gap2 + l.digits + l.tail + "\n"
  }

  function Render(d: Macros, l: Line): string {
    if l.Other? then l.text else Before(l) + (d.prefix + l.name) + After(l)
  }

  function Text(d: Macros, lines: seq<Line>): string {
    if lines == [] then "" else Render(d, lines[0]) + Text(d, lines[1..])
  }

  predicate At(text: string, sub: string, i: nat) { i + |sub| <= |text| && text[i..i + |sub|] == sub }

  predicate Contains(text: string, sub: string) { exists i :: 0 <= i <= |text| && At(text, sub, i) }

  lemma ContainsMiddle(a: string, sub: string, b: string)
    ensures Contains(a + sub + b, sub)
  {
    assert At(a + sub + b, sub, |a|);
  }

  lemma ContainsWider(a: string, text: string, b: string, sub: string)
    requires Contains(text, sub)
    ensures Contains(a + text + b, sub)
  {
    var i :| 0 <= i <= |text| && At(text, sub, i);
    var wide := a + text + b;
    assert wide[|a| + i..|a| + i + |sub|] == text[i..i + |sub|];
    assert At(wide, sub, |a| + i);
  }

  lemma LineShowsName(d: Macros, l: Line, up: string)
    requires !l.Other? && up <= l.name
    ensures Contains(Render(d, l), d.prefix + up)
  {
    var rest := l.name[|up|..];
    assert d.prefix + l.name == "" + (d.prefix + up) + rest;
    ContainsMiddle("", d.prefix + up, rest);
    ContainsWider(Before(l), d.prefix + l.name, After(l), d.prefix + up);
  }

  /** A text that lacks a macro has no line whose macro starts with it. */
  lemma {:induction false} NameIsVisible(d: Macros, lines: seq<Line>, k: nat, up: string)
    requires k < |lines| && !lines[k].Other? && up <= lines[k].name
    ensures Contains(Text(d, lines), d.prefix + up)
  {
    if k == 0 {
      LineShowsName(d, lines[0], up);
      ContainsWider("", Render(d, lines[0]), Text(d, lines[1..]), d.prefix + up);
      assert "" + Render(d, lines[0]) == Render(d, lines[0]);
    } else {
      NameIsVisible(d, lines[1..], k - 1, up);
      ContainsWider(Render(d, lines[0]), Text(d, lines[1..]), "", d.prefix + up);
      assert Render(d, lines[0]) + Text(d, lines[1..]) + "" == Text(d, lines);
    }
  }

  /** The macro is somewhere in the text. */
  ghost predicate Occurs(text: string, sub: string) { exists a: string, b: string :: text == a + sub + b }

  lemma ContainsMeans(text: string, sub: string)
    ensures Contains(text, sub) <==> Occurs(text, sub)
  {
    if Contains(text, sub) {
      var i :| 0 <= i <= |text| && At(text, sub, i);
      assert text == text[..i] + sub + text[i + |sub|..];
    }
    if a, b :| text == a + sub + b {
      ContainsMiddle(a, sub, b);
    }
  }

  /** A digit appended to a number multiplies it by ten and adds the digit. */
  lemma ValueReadsDigits(s: string, ch: char)
    requires '0' <= ch <= '9'
    ensures Value("") == 0 && Value(s + [ch]) == 10 * Value(s) + (ch as int - '0' as int)
  {
    assert (s + [ch])[..|s|] == s;
  }

  // ---- The edits ----

  function FirstEnum(lines: seq<Line>, name: string, i: nat): (k: nat)
    requires i <= |lines|
    ensures i <= k <= |lines| && (k < |lines| ==> lines[k].Enum? && lines[k].name == name)
    ensures forall j :: i <= j < k ==> !(lines[j].Enum? && lines[j].name == name)
    decreases |lines| - i
  {
    if i == |lines| || (lines[i].Enum? && lines[i].name == name) then i else FirstEnum(lines, name, i + 1)
  }

  function FirstDefine(lines: seq<Line>, name: string, i: nat): (k: nat)
    requires i <= |lines|
    ensures i <= k <= |lines| && (k < |lines| ==> lines[k].Define? && lines[k].name == name)
    ensures forall j :: i <= j < k ==> !(lines[j].Define? && lines[j].name == name)
    decreases |lines| - i
  {
    if i == |lines| || (lines[i].Define? && lines[i].name == name) then i else FirstDefine(lines, name, i + 1)
  }

  function Spaces(n: nat): (s: string)
    ensures |s| == n && forall i :: 0 <= i < n ==> s[i] == ' '
  {
    seq(n, _ => ' ')
  }

  /** Left-justified in 40 columns, as the #define form writes a new id. */
  function Pad40(d: Macros, up: string): (s: string)
    ensures |d.prefix + up| + |s| >= 40 && (s != "" ==> |d.prefix + up| + |s| == 40)
    ensures forall i :: 0 <= i < |s| ==> s[i] == ' '
  {
    if |d.prefix + up| < 40 then Spaces(40 - |d.prefix + up|) else ""
  }

  /** The macro of the new id occurs nowhere in the file, not even inside another name. */
  predicate Fresh(d: Macros, lines: seq<Line>, up: string) { !Contains(Text(d, lines), d.prefix + up) }

  /** Step 1: a new id takes the manager's number and the manager moves up by one. */
  function InsertId(d: Macros, lines: seq<Line>, up: string): Outcome
  {
    if !Fresh(d, lines, up) then Done(lines)
    else
      var k := FirstEnum(lines, d.manager, 0);
      if k < |lines| then
        var l := lines[k];
        var v := Value(l.digits);
        Done(lines[..k]
             + [Enum(l.indent, up, " ", " ", Decimal(v), "", ""),
                Enum(l.indent, d.manager, " ", " ", Decimal(v + 1), "", "")]
             + lines[k + 1..])
      else
        var j := FirstDefine(lines, d.manager, 0);
        if j < |lines| then
          var l := lines[j];
          var v := Value(l.digits);
          Done(lines[..j]
               + [Define(" ", up, Pad40(d, up) + " ", Decimal(v), ""),
                  Define(l.gap1, l.name, l.gap2, Decimal(v + 1), l.tail)]
               + lines[j + 1..])
        else NotFound
  }

  /** Step 2: the mux number goes up by one, whether or not step 1 inserted anything. */
  function BumpMux(d: Macros, lines: seq<Line>): seq<Line>
  {
    var k := FirstEnum(lines, d.mux, 0);
    if k < |lines| then
      var l := lines[k];
      lines[k := Enum(l.indent, d.mux, " ", " ", Decimal(Value(l.digits) + 1), "", NormalSuffix(l.suffix))]
    else
      var j := FirstDefine(lines, d.mux, 0);
      if j < |lines| then
        lines[j := Define(" ", d.mux, " ", Decimal(Value(lines[j].digits) + 1), lines[j].tail)]
      else lines
  }

  predicate IsSpace(ch: char) { ch == ' ' || '\t' <= ch <= '\r' }

  function RStrip(s: string): (r: string)
    ensures r <= s && (r != "" ==> !IsSpace(r[|r| - 1]))
  {
    if s != "" && IsSpace(s[|s| - 1]) then RStrip(s[..|s| - 1]) else s
  }

  /** What follows the comma: no trailing space, one leading space if anything is left. */
  function NormalSuffix(s: string): string {
    var r := RStrip(s);
    if r != "" && r[0] != ' ' then " " + r else r
  }

  function Widest(lines: seq<Line>): nat {
    if lines == [] then 0
    else
      var w := Widest(lines[1..]);
      if lines[0].Enum? && |lines[0].name| > w then |lines[0].name| else w
  }

  function Align(l: Line, width: nat): Line {
    if l.Enum? && |l.name| <= width
    then Enum(l.indent, l.name, Spaces(width - |l.name|) + " ", " ", l.digits, "", NormalSuffix(l.suffix))
    else l
  }

  /** _reformat_thread_id_enum. */
  function Reformat(lines: seq<Line>): seq<Line> {
    seq(|lines|, k requires 0 <= k < |lines| => Align(lines[k], Widest(lines)))
  }

  function Integrate(d: Macros, lines: seq<Line>, up: string): Outcome
  {
    match InsertId(d, lines, up)
    case NotFound => NotFound
    case Done(ls) => Done(Reformat(BumpMux(d, ls)))
  }

  // ---- The edits, on the file's text ----

  /** The text of an enum line as the tool writes it. */
  function EnumText(d: Macros, indent: string, name: string, v: nat, suffix: string): string {
    indent + (d.prefix + name) + (" = " + Decimal(v) + "," + suffix + "\n")
  }

  /** The text of a #define line as the tool writes it. */
  function DefineText(macro: string, pad: string, v: nat, tail: string): string {
    "#define " + macro + (pad + Decimal(v) + tail + "\n")
  }

  /** An absent macro: its line and the manager's new one take the place of the first manager enum line. */
  lemma InsertedEnum(d: Macros, lines: seq<Line>, up: string) returns (a: Line, b: Line)
    requires !Occurs(Text(d, lines), d.prefix + up) && FirstEnum(lines, d.manager, 0) < |lines|
    ensures var k := FirstEnum(lines, d.manager, 0); var v := Value(lines[k].digits);
            && InsertId(d, lines, up) == Done(lines[..k] + [a, b] + lines[k + 1..])
            && Render(d, a) == EnumText(d, lines[k].indent, up, v, "")
            && Render(d, b) == EnumText(d, lines[k].indent, d.manager, v + 1, "")
  {
    hide Text, Value, Contains, Occurs, Render, EnumText;
    ContainsMeans(Text(d, lines), d.prefix + up);
    var l := lines[FirstEnum(lines, d.manager, 0)];
    var v := Value(l.digits);
    a := Enum(l.indent, up, " ", " ", Decimal(v), "", "");
    b := Enum(l.indent, d.manager, " ", " ", Decimal(v + 1), "", "");
    RenderedEnum(d, l.indent, up, v, "");
    RenderedEnum(d, l.indent, d.manager, v + 1, "");
  }

  /** Without a manager enum line the same happens at the first manager #define, whose spacing is kept. */
  lemma InsertedDefine(d: Macros, lines: seq<Line>, up: string) returns (a: Line, b: Line)
    requires !Occurs(Text(d, lines), d.prefix + up)
    requires FirstEnum(lines, d.manager, 0) == |lines| && FirstDefine(lines, d.manager, 0) < |lines|
    ensures var j := FirstDefine(lines, d.manager, 0); var v := Value(lines[j].digits);
            && InsertId(d, lines, up) == Done(lines[..j] + [a, b] + lines[j + 1..])
            && Render(d, a) == DefineText(d.prefix + up, Pad40(d, up) + " ", v, "")
            && b.Define? && b.name == d.manager && b.digits == Decimal(v + 1)
            && b.gap1 == lines[j].gap1 && b.gap2 == lines[j].gap2 && b.tail == lines[j].tail
  {
    hide Text, Value, Contains, Occurs, Render, Pad40, DefineText;
    ContainsMeans(Text(d, lines), d.prefix + up);
    var l := lines[FirstDefine(lines, d.manager, 0)];
    var v := Value(l.digits);
    a := Define(" ", up, Pad40(d, up) + " ", Decimal(v), "");
    b := Define(l.gap1, l.name, l.gap2, Decimal(v + 1), l.tail);
    RenderedDefine(d, up, Pad40(d, up) + " ", v, "");
  }

  /** A macro that occurs in the file is skipped; an absent one without a manager line is an error. */
  lemma NotInserted(d: Macros, lines: seq<Line>, up: string)
    ensures Occurs(Text(d, lines), d.prefix + up) ==> InsertId(d, lines, up) == Done(lines)
    ensures !Occurs(Text(d, lines), d.prefix + up)
            && FirstEnum(lines, d.manager, 0) == FirstDefine(lines, d.manager, 0) == |lines|
            ==> InsertId(d, lines, up) == NotFound
  {
    hide Text, Contains;
    ContainsMeans(Text(d, lines), d.prefix + up);
  }

  lemma RenderedEnum(d: Macros, indent: string, name: string, v: nat, suffix: string)
    ensures Render(d, Enum(indent, name, " ", " ", Decimal(v), "", suffix)) == EnumText(d, indent, name, v, suffix)
  {
    hide Decimal;
    assert " " + "=" + " " == " = ";
    assert " = " + Decimal(v) + "" == " = " + Decimal(v);
  }

  lemma RenderedDefine(d: Macros, name: string, pad: string, v: nat, tail: string)
    ensures Render(d, Define(" ", name, pad, Decimal(v), tail)) == DefineText(d.prefix + name, pad, v, tail)
  {
    hide Decimal;
    assert "#define" + " " == "#define ";
  }

  /** The first mux line, in either form, is rewritten with its number plus one; all other lines stay. */
  lemma BumpedText(d: Macros, lines: seq<Line>)
    ensures var k, j := FirstEnum(lines, d.mux, 0), FirstDefine(lines, d.mux, 0);
            var at, ls := if k < |lines| then k else j, BumpMux(d, lines);
            && |ls| == |lines| && (forall i :: 0 <= i < |lines| && i != at ==> ls[i] == lines[i])
            && (k < |lines| ==>
                  Render(d, ls[at])
                  == EnumText(d, lines[at].indent, d.mux, Value(lines[at].digits) + 1, NormalSuffix(lines[at].suffix)))
            && (k == |lines| && j < |lines| ==>
                  Render(d, ls[at]) == DefineText(d.prefix + d.mux, " ", Value(lines[at].digits) + 1, lines[at].tail))
  {
    hide Value, RStrip, NormalSuffix, Render, EnumText, DefineText;
    var k, j := FirstEnum(lines, d.mux, 0), FirstDefine(lines, d.mux, 0);
    if k < |lines| {
      RenderedEnum(d, lines[k].indent, d.mux, Value(lines[k].digits) + 1, NormalSuffix(lines[k].suffix));
    } else if j < |lines| {
      RenderedDefine(d, d.mux, " ", Value(lines[j].digits) + 1, lines[j].tail);
    }
  }

  /** What follows the comma is kept up to its trailing white space, with one space before it if it has none. */
  lemma SuffixMeaning(s: string) returns (core: string)
    ensures core <= s && (core != "" ==> !IsSpace(core[|core| - 1]))
    ensures forall i :: |core| <= i < |s| ==> IsSpace(s[i])
    ensures NormalSuffix(s) == if core == "" || core[0] == ' ' then core else " " + core
  {
    core := RStrip(s);
    StrippedIsSpace(s);
  }

  lemma {:induction false} StrippedIsSpace(s: string)
    ensures forall i :: |RStrip(s)| <= i < |s| ==> IsSpace(s[i])
  {
    if s == "" {
    } else if IsSpace(s[|s| - 1]) {
      StrippedIsSpace(s[..|s| - 1]);
    }
  }

  // ---- The reformatter ----

  lemma {:induction false} WidestBounds(lines: seq<Line>)
    ensures forall k :: 0 <= k < |lines| && lines[k].Enum? ==> |lines[k].name| <= Widest(lines)
  {
    if lines == [] {
    } else {
      WidestBounds(lines[1..]);
    }
  }

  lemma {:induction false} WidestOfSameNames(a: seq<Line>, b: seq<Line>)
    requires |a| == |b|
    requires forall k :: 0 <= k < |a| ==> (a[k].Enum? <==> b[k].Enum?) && (a[k].Enum? ==> a[k].name == b[k].name)
    ensures Widest(a) == Widest(b)
  {
    if a == [] {
    } else {
      WidestOfSameNames(a[1..], b[1..]);
    }
  }

  lemma NormalSuffixTwice(s: string)
    ensures NormalSuffix(NormalSuffix(s)) == NormalSuffix(s)
  {
    var r := RStrip(s);
    if r != "" && r[0] != ' ' { assert (" " + r)[|r|] == r[|r| - 1]; }
  }

  /** The reformatter keeps every line's meaning: indent, name and digits of enum lines, and all other lines. */
  lemma ReformatPreserves(lines: seq<Line>)
    ensures |Reformat(lines)| == |lines|
    ensures forall k :: 0 <= k < |lines| ==>
              var l, r := lines[k], Reformat(lines)[k];
              if l.Enum? then r.Enum? && r.indent == l.indent && r.name == l.name && r.digits == l.digits
                              && |r.name + r.pad| == Widest(lines) + 1
              else r == l
    ensures (exists k :: 0 <= k < |lines| && lines[k].Enum?)
              ==> exists k :: 0 <= k < |lines| && lines[k].Enum? && |lines[k].name| == Widest(lines)
    ensures forall k :: 0 <= k < |lines| && lines[k].Enum? ==>
              var r := Reformat(lines)[k];
              r.mid == " " && r.post == "" && r.suffix == NormalSuffix(lines[k].suffix)
              && forall i :: 0 <= i < |r.pad| ==> r.pad[i] == ' '
  {
    WidestBounds(lines);
    if k :| 0 <= k < |lines| && lines[k].Enum? { WidestAttained(lines, k); }
  }

  lemma {:induction false} WidestAttained(lines: seq<Line>, k: nat)
    requires k < |lines| && lines[k].Enum?
    ensures exists j :: 0 <= j < |lines| && lines[j].Enum? && |lines[j].name| == Widest(lines)
  {
    if Widest(lines) == Widest(lines[1..]) && exists i :: 0 <= i < |lines[1..]| && lines[1..][i].Enum? {
      var i :| 0 <= i < |lines[1..]| && lines[1..][i].Enum?;
      WidestAttained(lines[1..], i);
      var j :| 0 <= j < |lines[1..]| && lines[1..][j].Enum? && |lines[1..][j].name| == Widest(lines[1..]);
      assert lines[j + 1].Enum? && |lines[j + 1].name| == Widest(lines);
    } else {
      WidestBounds(lines[1..]);
      assert lines[0].Enum?;
      NoneIsZero(lines[1..]);
    }
  }

  lemma {:induction false} NoneIsZero(lines: seq<Line>)
    ensures (forall i :: 0 <= i < |lines| ==> !lines[i].Enum?) ==> Widest(lines) == 0
  {
    if lines == [] {
    } else {
      NoneIsZero(lines[1..]);
    }
  }

  lemma ReformatIdempotent(lines: seq<Line>)
    ensures Reformat(Reformat(lines)) == Reformat(lines)
  {
    ReformatPreserves(lines);
    WidestBounds(lines);
    WidestOfSameNames(lines, Reformat(lines));
    forall k | 0 <= k < |lines| ensures Reformat(Reformat(lines))[k] == Reformat(lines)[k] {
      if lines[k].Enum? { NormalSuffixTwice(lines[k].suffix); }
    }
  }

  // ---- Numbering ----

  /** The enum's constants in file order, as (name, value). */
  function Ids(lines: seq<Line>): seq<(string, nat)>
  {
    if lines == [] then [] else IdOf(lines[0]) + Ids(lines[1..])
  }

  function IdOf(l: Line): seq<(string, nat)> { if l.Enum? then [(l.name, Value(l.digits))] else [] }

  /** `tasks` numbered 0, 1, ... in file order, then the manager with the next number, then the mux number. */
  predicate Numbered(d: Macros, lines: seq<Line>, tasks: seq<string>, mux: nat)
  {
    && d.manager != d.mux
    && Ids(lines) == Counted(tasks) + [(d.manager, |tasks|)] + [(d.mux, mux)]
    && (forall i :: 0 <= i < |tasks| ==> tasks[i] != d.manager && tasks[i] != d.mux)
    && (forall i, j :: 0 <= i < j < |tasks| ==> tasks[i] != tasks[j])
  }

  lemma {:induction false} IdsSplit(a: seq<Line>, b: seq<Line>)
    ensures Ids(a + b) == Ids(a) + Ids(b)
  {
    hide IdOf;
    if a == [] {
      assert a + b == b;
    } else {
      assert (a + b)[1..] == a[1..] + b;
      IdsSplit(a[1..], b);
      Regroup(IdOf(a[0]), Ids(a[1..]), Ids(b));
    }
  }

  lemma {:induction false} IdsOfSame(a: seq<Line>, b: seq<Line>)
    requires |a| == |b|
    requires forall k :: 0 <= k < |a| ==> (a[k].Enum? <==> b[k].Enum?)
                                          && (a[k].Enum? ==> a[k].name == b[k].name && a[k].digits == b[k].digits)
    ensures Ids(a) == Ids(b)
  {
    if a == [] {
    } else {
      IdsOfSame(a[1..], b[1..]);
    }
  }

  lemma {:induction false} IdsComeFromLines(lines: seq<Line>, id: (string, nat))
    requires id in Ids(lines)
    ensures exists k :: 0 <= k < |lines| && lines[k].Enum? && lines[k].name == id.0
  {
    if lines[0].Enum? && id == (lines[0].name, Value(lines[0].digits)) {
    } else {
      IdsComeFromLines(lines[1..], id);
      var k :| 0 <= k < |lines[1..]| && lines[1..][k].Enum? && lines[1..][k].name == id.0;
      assert lines[k + 1].Enum? && lines[k + 1].name == id.0;
    }
  }

  /** Replacing one line by others replaces its constants. */
  lemma IdsReplace(lines: seq<Line>, k: nat, mid: seq<Line>)
    requires k < |lines|
    ensures Ids(lines[..k] + mid + lines[k + 1..]) == Ids(lines[..k]) + Ids(mid) + Ids(lines[k + 1..])
  {
    IdsSplit(lines[..k], mid);
    IdsSplit(lines[..k] + mid, lines[k + 1..]);
  }

  lemma IdsOfOne(l: Line)
    requires l.Enum?
    ensures Ids([l]) == [(l.name, Value(l.digits))]
  {
    assert [l][1..] == [];
  }

  lemma NotBefore(lines: seq<Line>, name: string, id: (string, nat))
    requires id in Ids(lines[..FirstEnum(lines, name, 0)])
    ensures id.0 != name
  {
    IdsComeFromLines(lines[..FirstEnum(lines, name, 0)], id);
  }

  /** Where the first line of a name splits the list of constants. */
  lemma SplitAtFirst(lines: seq<Line>, name: string, v: nat) returns (k: nat)
    requires (name, v) in Ids(lines)
    ensures k == FirstEnum(lines, name, 0) && k < |lines|
    ensures Ids(lines) == Ids(lines[..k]) + [(name, Value(lines[k].digits))] + Ids(lines[k + 1..])
    ensures forall id :: id in Ids(lines[..k]) ==> id.0 != name
  {
    hide Value, Ids;
    IdsComeFromLines(lines, (name, v));
    k := FirstEnum(lines, name, 0);
    assert lines == lines[..k] + [lines[k]] + lines[k + 1..];
    IdsReplace(lines, k, [lines[k]]);
    IdsOfOne(lines[k]);
    forall id | id in Ids(lines[..k]) ensures id.0 != name { NotBefore(lines, name, id); }
  }

  /** The first constant of a name determines how a list splits around it. */
  lemma UniqueSplit(a: seq<(string, nat)>, x: (string, nat), b: seq<(string, nat)>,
                    c: seq<(string, nat)>, y: (string, nat), d: seq<(string, nat)>)
    requires (a + [x]) + b == (c + [y]) + d && x.0 == y.0
    requires forall id :: id in a ==> id.0 != x.0
    requires forall id :: id in c ==> id.0 != x.0
    ensures a == c && x == y && b == d
  {
    var l, r := (a + [x]) + b, (c + [y]) + d;
    forall i | 0 <= i < |a| ensures l[i].0 != x.0 { assert l[i] == a[i] && a[i] in a; }
    forall i | 0 <= i < |c| ensures r[i].0 != x.0 { assert r[i] == c[i] && c[i] in c; }
    assert l[|a|] == x && r[|c|] == y;
    assert |a| == |c|;
    assert a == l[..|a|] && c == r[..|c|] && b == l[|a| + 1..] && d == r[|c| + 1..];
  }

  function Counted(tasks: seq<string>): seq<(string, nat)> {
    seq(|tasks|, i requires 0 <= i < |tasks| => (tasks[i], i))
  }

  lemma FreshIsNew(d: Macros, lines: seq<Line>, up: string, id: (string, nat))
    requires Fresh(d, lines, up) && id in Ids(lines)
    ensures id.0 != up
  {
    IdsComeFromLines(lines, id);
    var k :| 0 <= k < |lines| && lines[k].Enum? && lines[k].name == id.0;
    if id.0 == up { NameIsVisible(d, lines, k, up); }
  }

  /** A fresh name is inserted with the manager's number, and the manager moves up. */
  lemma InsertNumbers(d: Macros, lines: seq<Line>, up: string, tasks: seq<string>, mux: nat)
    requires Numbered(d, lines, tasks, mux) && Fresh(d, lines, up)
    ensures InsertId(d, lines, up).Done? && Numbered(d, InsertId(d, lines, up).lines, tasks + [up], mux)
  {
    hide Value, Fresh;
    var m := |tasks|;
    assert Ids(lines)[m] == (d.manager, m);
    var k := SplitAtFirst(lines, d.manager, m);
    UniqueSplit(Ids(lines[..k]), (d.manager, Value(lines[k].digits)), Ids(lines[k + 1..]),
                Counted(tasks), (d.manager, m), [(d.mux, mux)]);
    var a := Enum(lines[k].indent, up, " ", " ", Decimal(m), "", "");
    var b := Enum(lines[k].indent, d.manager, " ", " ", Decimal(m + 1), "", "");
    assert InsertId(d, lines, up) == Done(lines[..k] + [a, b] + lines[k + 1..]);
    IdsReplace(lines, k, [a, b]);
    TwoIds(a, b);
    assert Counted(tasks + [up]) == Counted(tasks) + [(up, m)];
    NewNameDiffers(d, lines, up, tasks, mux);
  }

  lemma TwoIds(a: Line, b: Line)
    requires a.Enum? && b.Enum?
    ensures Ids([a, b]) == [(a.name, Value(a.digits))] + [(b.name, Value(b.digits))]
  {
    assert [a, b] == [a] + [b];
    IdsSplit([a], [b]);
    IdsOfOne(a);
    IdsOfOne(b);
  }

  lemma NewNameDiffers(d: Macros, lines: seq<Line>, up: string, tasks: seq<string>, mux: nat)
    requires Numbered(d, lines, tasks, mux) && Fresh(d, lines, up)
    ensures up != d.manager && up != d.mux && forall i :: 0 <= i < |tasks| ==> tasks[i] != up
  {
    var ids := Ids(lines);
    forall i | 0 <= i < |tasks| ensures tasks[i] != up {
      assert ids[i] == (tasks[i], i);
      FreshIsNew(d, lines, up, ids[i]);
    }
    FreshIsNew(d, lines, up, ids[|tasks|]);
    FreshIsNew(d, lines, up, ids[|tasks| + 1]);
  }

  lemma BumpNumbers(d: Macros, lines: seq<Line>, tasks: seq<string>, mux: nat)
    requires Numbered(d, lines, tasks, mux)
    ensures Numbered(d, BumpMux(d, lines), tasks, mux + 1)
  {
    hide RStrip, Value;
    var m := |tasks|;
    assert Ids(lines)[m + 1] == (d.mux, mux);
    var k := SplitAtFirst(lines, d.mux, mux);
    var front := Counted(tasks) + [(d.manager, m)];
    assert Ids(lines) == (front + [(d.mux, mux)]) + [];
    UniqueSplit(Ids(lines[..k]), (d.mux, Value(lines[k].digits)), Ids(lines[k + 1..]), front, (d.mux, mux), []);
    var l := Enum(lines[k].indent, d.mux, " ", " ", Decimal(mux + 1), "", NormalSuffix(lines[k].suffix));
    assert BumpMux(d, lines) == lines[..k] + [l] + lines[k + 1..];
    IdsReplace(lines, k, [l]);
    IdsOfOne(l);
  }

  lemma ReformatNumbers(d: Macros, lines: seq<Line>, tasks: seq<string>, mux: nat)
    requires Numbered(d, lines, tasks, mux)
    ensures Numbered(d, Reformat(lines), tasks, mux)
  {
    ReformatPreserves(lines);
    IdsOfSame(lines, Reformat(lines));
  }

  /** One integration: a fresh name gets the manager's number; any name moves the mux number. */
  lemma IntegrateNumbers(d: Macros, lines: seq<Line>, up: string, tasks: seq<string>, mux: nat)
    requires Numbered(d, lines, tasks, mux)
    ensures Integrate(d, lines, up).Done?
    ensures Numbered(d, Integrate(d, lines, up).lines, if Fresh(d, lines, up) then tasks + [up] else tasks, mux + 1)
  {
    var now := if Fresh(d, lines, up) then tasks + [up] else tasks;
    if Fresh(d, lines, up) { InsertNumbers(d, lines, up, tasks, mux); }
    var ls := InsertId(d, lines, up).lines;
    BumpNumbers(d, ls, now, mux);
    ReformatNumbers(d, BumpMux(d, ls), now, mux + 1);
  }

  /**
   * A name that begins an existing task's name is not fresh: the file gets no id for it, and yet the
   * mux number moves.
   */
  lemma PrefixIsSkipped(d: Macros, lines: seq<Line>, up: string, tasks: seq<string>, mux: nat, i: nat)
    requires Numbered(d, lines, tasks, mux) && i < |tasks| && up <= tasks[i]
    ensures !Fresh(d, lines, up)
    ensures Integrate(d, lines, up).Done? && Numbered(d, Integrate(d, lines, up).lines, tasks, mux + 1)
  {
    assert Ids(lines)[i] == (tasks[i], i) && Ids(lines)[i] in Ids(lines);
    IdsComeFromLines(lines, Ids(lines)[i]);
    var k :| 0 <= k < |lines| && lines[k].Enum? && lines[k].name == tasks[i];
    NameIsVisible(d, lines, k, up);
    IntegrateNumbers(d, lines, up, tasks, mux);
  }

  /** The lines the rest of the merge looks for before it writes the file. */
  const STACK_MANAGER := "#define CONFIG_THREAD_STACK_MANAGER 2048\n"
  const PRIO_MANAGER := "#define CONFIG_THREAD_PRIO_MANAGER 10\n"

  /**
   * TEST merged into a file with TEST1: the numbering 0, 1, 2 of TEST1, MANAGER, MUX_NUMBER becomes 0, 1, 3.
   * The file has the lines whose absence would stop the tool before it writes.
   */
  lemma GapAfterPrefix() returns (lines: seq<Line>)
    ensures Other(STACK_MANAGER) in lines && Other(PRIO_MANAGER) in lines
    ensures Numbered(THREAD_IDS, lines, ["TEST1"], 2)
    ensures Integrate(THREAD_IDS, lines, "TEST").Done?
    ensures Ids(Integrate(THREAD_IDS, lines, "TEST").lines) == [("TEST1", 0), ("MANAGER", 1), ("MUX_NUMBER", 3)]
  {
    hide Integrate, Text, Contains;
    lines := SmallFile();
    assert "TEST" <= "TEST1";
    PrefixIsSkipped(THREAD_IDS, lines, "TEST", ["TEST1"], 2, 0);
    assert Counted(["TEST1"]) == [("TEST1", 0)];
  }

  lemma {:induction false} TextLacks(d: Macros, lines: seq<Line>, ch: char)
    requires forall l :: l in lines ==> ch !in Render(d, l)
    ensures ch !in Text(d, lines)
  {
    if lines == [] {
    } else {
      TextLacks(d, lines[1..], ch);
    }
  }

  /** NEW merged into the same file: it gets the manager's number, and the others move up. */
  lemma FreshMerge() returns (lines: seq<Line>)
    ensures Other(STACK_MANAGER) in lines && Other(PRIO_MANAGER) in lines
    ensures Ids(lines) == [("TEST1", 0), ("MANAGER", 1), ("MUX_NUMBER", 2)]
    ensures Integrate(THREAD_IDS, lines, "NEW").Done?
    ensures Ids(Integrate(THREAD_IDS, lines, "NEW").lines)
         == [("TEST1", 0), ("NEW", 1), ("MANAGER", 2), ("MUX_NUMBER", 3)]
  {
    lines := SmallFile();
    hide Text, Contains, Integrate;
    var text, macro := Text(THREAD_IDS, lines), THREAD_IDS.prefix + "NEW";
    ContainsMeans(text, macro);
    assert macro[|THREAD_IDS.prefix| + 2] == 'W';
    LacksMacro(text, macro, 'W');
    IntegrateNumbers(THREAD_IDS, lines, "NEW", ["TEST1"], 2);
    assert Counted(["TEST1"]) == [("TEST1", 0)];
    assert ["TEST1"] + ["NEW"] == ["TEST1", "NEW"];
    assert Counted(["TEST1", "NEW"]) == [("TEST1", 0), ("NEW", 1)];
  }

  lemma SmallFile() returns (lines: seq<Line>)
    ensures Other(STACK_MANAGER) in lines && Other(PRIO_MANAGER) in lines
    ensures Numbered(THREAD_IDS, lines, ["TEST1"], 2) && 'W' !in Text(THREAD_IDS, lines)
  {
    var a := Enum("", "TEST1", " ", " ", "0", "", "");
    var b := Enum("", "MANAGER", " ", " ", "1", "", "");
    var c := Enum("", "MUX_NUMBER", " ", " ", "2", "", "");
    var rest := [Other(STACK_MANAGER), Other(PRIO_MANAGER)];
    lines := ([a, b] + [c]) + rest;
    assert lines == [a, b, c, Other(STACK_MANAGER), Other(PRIO_MANAGER)];
    assert lines[3] == Other(STACK_MANAGER) && lines[4] == Other(PRIO_MANAGER);
    hide Value, Text, Render;
    SmallFileLacksW(a, b, c);
    TextLacks(THREAD_IDS, lines, 'W');
    OneDigit();
    TwoIds(a, b);
    IdsOfOne(c);
    IdsSplit([a, b], [c]);
    IdsSplit([a, b] + [c], rest);
    assert Ids(rest) == [] by { assert rest[1..][1..] == []; }
    assert "MANAGER"[1] == 'A' && "MUX_NUMBER"[1] == 'U' && "TEST1"[0] == 'T';
    assert Counted(["TEST1"]) == [("TEST1", 0)];
  }

  lemma LacksMacro(text: string, macro: string, ch: char)
    requires ch in macro && ch !in text
    ensures !Occurs(text, macro)
  {
    forall a: string, b: string ensures text != a + macro + b {
      assert ch in a + macro + b;
    }
  }

  lemma EnumLacks(d: Macros, l: Line, ch: char)
    requires l.Enum? && ch != '=' && ch != ',' && ch != '\n' && ch !in d.prefix
    requires ch !in l.indent && ch !in l.name && ch !in l.pad && ch !in l.mid && ch !in l.digits && ch !in l.post
    requires ch !in l.suffix
    ensures ch !in Render(d, l)
  {
    assert ch !in Before(l) && ch !in d.prefix + l.name && ch !in After(l);
  }

  lemma OneDigit()
    ensures Value("0") == 0 && Value("1") == 1 && Value("2") == 2
  {
    ValueReadsDigits("", '0');
    ValueReadsDigits("", '1');
    ValueReadsDigits("", '2');
    assert "" + ['0'] == "0" && "" + ['1'] == "1" && "" + ['2'] == "2";
  }

  lemma SmallFileLacksW(a: Line, b: Line, c: Line)
    requires a == Enum("", "TEST1", " ", " ", "0", "", "")
    requires b == Enum("", "MANAGER", " ", " ", "1", "", "")
    requires c == Enum("", "MUX_NUMBER", " ", " ", "2", "", "")
    ensures forall l :: l in [a, b, c, Other(STACK_MANAGER), Other(PRIO_MANAGER)] ==> 'W' !in Render(THREAD_IDS, l)
  {
    PrefixLacksW();
    EnumLacks(THREAD_IDS, a, 'W');
    EnumLacks(THREAD_IDS, b, 'W');
    EnumLacks(THREAD_IDS, c, 'W');
    DefinesLackW();
    hide After, Before;
  }

  lemma PrefixLacksW()
    ensures 'W' !in THREAD_IDS.prefix
  {
  }

  lemma DefinesLackW()
    ensures 'W' !in STACK_MANAGER && 'W' !in PRIO_MANAGER
  {
  }

  // ---- Any sequence of integrations ----

  function IntegrateAll(d: Macros, lines: seq<Line>, ups: seq<string>): Outcome
    decreases ups
  {
    if ups == [] then Done(lines)
    else
      match Integrate(d, lines, ups[0])
      case NotFound => NotFound
      case Done(ls) => IntegrateAll(d, ls, ups[1..])
  }

  /** The task names after the sequence: each name that is absent from the file when its turn comes is added. */
  function Names(d: Macros, lines: seq<Line>, ups: seq<string>, tasks: seq<string>): seq<string>
    decreases ups
  {
    if ups == [] then tasks
    else
      match Integrate(d, lines, ups[0])
      case NotFound => tasks
      case Done(ls) => Names(d, ls, ups[1..], if Fresh(d, lines, ups[0]) then tasks + [ups[0]] else tasks)
  }

  /** How many names of the sequence are absent from the file when their turn comes. */
  function FreshCount(d: Macros, lines: seq<Line>, ups: seq<string>): nat
    decreases ups
  {
    if ups == [] then 0
    else
      match Integrate(d, lines, ups[0])
      case NotFound => 0
      case Done(ls) => (if Fresh(d, lines, ups[0]) then 1 else 0) + FreshCount(d, ls, ups[1..])
  }

  lemma {:induction false} NamesGrow(d: Macros, lines: seq<Line>, ups: seq<string>, tasks: seq<string>)
    ensures tasks <= Names(d, lines, ups, tasks) && FreshCount(d, lines, ups) <= |ups|
    ensures |Names(d, lines, ups, tasks)| == |tasks| + FreshCount(d, lines, ups)
    decreases ups
  {
    if ups == [] {
    } else {
      match Integrate(d, lines, ups[0])
      case NotFound =>
      case Done(ls) => NamesGrow(d, ls, ups[1..], if Fresh(d, lines, ups[0]) then tasks + [ups[0]] else tasks);
    }
  }

  lemma {:induction false} IntegrationsNumber(d: Macros, lines: seq<Line>, ups: seq<string>, tasks: seq<string>,
                                               mux: nat)
    requires Numbered(d, lines, tasks, mux)
    ensures IntegrateAll(d, lines, ups).Done?
    ensures Numbered(d, IntegrateAll(d, lines, ups).lines, Names(d, lines, ups, tasks), mux + |ups|)
    decreases ups
  {
    hide Integrate, Numbered, Fresh;
    if ups == [] {
    } else {
      var up := ups[0];
      IntegrateNumbers(d, lines, up, tasks, mux);
      IntegrationsNumber(d, Integrate(d, lines, up).lines, ups[1..],
                         if Fresh(d, lines, up) then tasks + [up] else tasks, mux + 1);
    }
  }

  /**
   * Any sequence of integrations keeps the old ids and gives every task and the manager distinct ids
   * below the mux number. From a dense file the numbering stays dense (manager = mux - 1) exactly when
   * every name was absent from the file when it was integrated.
   */
  lemma AnyIntegrations(d: Macros, lines: seq<Line>, ups: seq<string>, tasks: seq<string>)
    requires Numbered(d, lines, tasks, |tasks| + 1)
    ensures IntegrateAll(d, lines, ups).Done?
    ensures var now := Names(d, lines, ups, tasks); var mux := |tasks| + 1 + |ups|;
            && Numbered(d, IntegrateAll(d, lines, ups).lines, now, mux)
            && tasks <= now && |now| < mux
            && (|now| == mux - 1 <==> FreshCount(d, lines, ups) == |ups|)
  {
    hide Integrate, Numbered, Fresh;
    IntegrationsNumber(d, lines, ups, tasks, |tasks| + 1);
    NamesGrow(d, lines, ups, tasks);
  }
}
