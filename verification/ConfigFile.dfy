/**
 * The integrator's edits of the file's line list, made in place by scanning loops and tied to the
 * edits of `ConfigIds`.
 */
module ConfigFile {
  import opened ConfigIds

  class ConfigFile {
    const d: Macros
    var lines: seq<Line>

    constructor (d: Macros, lines: seq<Line>)
      ensures this.d == d && this.lines == lines
    {
      this.d, this.lines := d, lines;
    }

    /** The first enum line of a name, or the number of lines. */
    method FindEnum(name: string) returns (i: nat)
      ensures i == FirstEnum(lines, name, 0)
    {
      i := 0;
      while i < |lines| && !(lines[i].Enum? && lines[i].name == name)
        invariant i <= |lines| && FirstEnum(lines, name, 0) == FirstEnum(lines, name, i)
      {
        i := i + 1;
      }
    }

    /** The first #define line of a name, or the number of lines. */
    method FindDefine(name: string) returns (i: nat)
      ensures i == FirstDefine(lines, name, 0)
    {
      i := 0;
      while i < |lines| && !(lines[i].Define? && lines[i].name == name)
        invariant i <= |lines| && FirstDefine(lines, name, 0) == FirstDefine(lines, name, i)
      {
        i := i + 1;
      }
    }

    /** Step 1 of the integration; false when the manager line is missing. */
    method InsertTask(up: string) returns (ok: bool)
      modifies this
      ensures ok <==> InsertId(d, old(lines), up).Done?
      ensures lines == if ok then InsertId(d, old(lines), up).lines else old(lines)
    {
      ghost var was := lines;
      if Contains(Text(d, lines), d.prefix + up) {
        return true;
      }
      var k := FindEnum(d.manager);
      if k < |lines| {
        var l := lines[k];
        var v := Value(l.digits);
        var a := Enum(l.indent, up, " ", " ", Decimal(v), "", "");
        var b := Enum(l.indent, d.manager, " ", " ", Decimal(v + 1), "", "");
        lines := lines[..k] + [a] + lines[k..];
        lines := lines[k + 1 := b];
        InsertThenWrite(was, k, a, b);
        return true;
      }
      var j := FindDefine(d.manager);
      if j == |lines| {
        return false;
      }
      var l := lines[j];
      var v := Value(l.digits);
      var a := Define(" ", up, Pad40(d, up) + " ", Decimal(v), "");
      var b := Define(l.gap1, l.name, l.gap2, Decimal(v + 1), l.tail);
      lines := lines[..j] + [a] + lines[j..];
      lines := lines[j + 1 := b];
      InsertThenWrite(was, j, a, b);
      return true;
    }

    /** Step 2: the mux number, if the file has one, goes up by one. */
    method UpdateMux()
      modifies this
      ensures lines == BumpMux(d, old(lines))
    {
      var k := FindEnum(d.mux);
      if k < |lines| {
        var l := lines[k];
        lines := lines[k := Enum(l.indent, d.mux, " ", " ", Decimal(Value(l.digits) + 1), "", NormalSuffix(l.suffix))];
        return;
      }
      var j := FindDefine(d.mux);
      if j < |lines| {
        lines := lines[j := Define(" ", d.mux, " ", Decimal(Value(lines[j].digits) + 1), lines[j].tail)];
      }
    }

    /** _reformat_thread_id_enum: collect the enum lines and the widest name, then rewrite them. */
    method ReformatEnum()
      modifies this
      ensures lines == Reformat(old(lines))
    {
      ghost var was := lines;
      var entries: seq<nat>, width: nat := [], 0;
      for i := 0 to |lines|
        invariant Widest(lines) == Max(width, Widest(lines[i..]))
        invariant forall k :: k in entries <==> 0 <= k < i && lines[k].Enum?
        invariant forall e :: 0 <= e < |entries| ==> entries[e] < i
        invariant forall a, b :: 0 <= a < b < |entries| ==> entries[a] < entries[b]
      {
        assert lines[i..][0] == lines[i] && lines[i..][1..] == lines[i + 1..];
        if lines[i].Enum? {
          entries, width := entries + [i], Max(width, |lines[i].name|);
        }
      }
      WidestBounds(was);
      for e := 0 to |entries|
        invariant |lines| == |was|
        invariant forall k :: 0 <= k < |was| ==> lines[k] == if k in entries[..e] then Align(was[k], width) else was[k]
      {
        var k := entries[e];
        assert k in entries && k !in entries[..e] && entries[..e + 1] == entries[..e] + [k];
        lines := lines[k := Align(lines[k], width)];
      }
      assert entries[..|entries|] == entries;
      assert lines == Reformat(was);
    }

    /** The task-id part of integrate_thread_config_h: on an error the file keeps its old lines. */
    method IntegrateTask(up: string) returns (ok: bool)
      modifies this
      ensures ok <==> Integrate(d, old(lines), up).Done?
      ensures lines == if ok then Integrate(d, old(lines), up).lines else old(lines)
    {
      ok := InsertTask(up);
      if ok {
        UpdateMux();
        ReformatEnum();
      }
    }
  }

  /** Inserting a line and then writing over the next one replaces one line by two. */
  lemma InsertThenWrite<T>(s: seq<T>, k: nat, a: T, b: T)
    requires k < |s|
    ensures (s[..k] + [a] + s[k..])[k + 1 := b] == s[..k] + [a, b] + s[k + 1..]
  {
  }

  function Max(a: nat, b: nat): nat { if a < b then b else a }
}
