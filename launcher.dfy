/**
 * The manual set-up form's launch rule: turning the entries a user typed
 * into planet overrides and an optional extra body, or rejecting them.
 *
 * Each numeric entry reaches the model already classified: blank (nothing
 * but whitespace), a number the string-to-float conversion accepted, or
 * text it refused.
 */
module Launcher {
  import opened Options
  import opened Vectors
  import opened Roster

  datatype Field = Blank | Number(value: real) | Unparsable

  /** One planet's row of the form: position then velocity components, in SI units. */
  datatype PlanetRow = PlanetRow(name: string, px: Field, py: Field, pz: Field, vx: Field, vy: Field, vz: Field)

  /** The extra body's part of the form; `name` is the raw text of its entry. */
  datatype CustomForm = CustomForm(
    name: string, mass: Field, radius: Field,
    px: Field, py: Field, pz: Field, vx: Field, vy: Field, vz: Field)

  /** Either the simulation starts with these inputs, or the form shows its error. */
  datatype Outcome =
    | Launched(overrides: map<string, Override>, custom: Option<CustomBody>)
    | Rejected

  /** The characters the string library's `strip` removes. */
  predicate IsSpace(c: char) {
    || c == ' ' || c == '\t' || c == '\n' || c == '\r' || c == '\U{0B}' || c == '\U{0C}'
    || ('\U{1C}' <= c <= '\U{1F}') || c == '\U{85}' || c == '\U{A0}' || c == '\U{1680}'
    || ('\U{2000}' <= c <= '\U{200A}') || c == '\U{2028}' || c == '\U{2029}'
    || c == '\U{202F}' || c == '\U{205F}' || c == '\U{3000}'
  }

  /** `s` without its leading whitespace. */
  function StripLeft(s: string): (r: string)
    ensures |r| <= |s| && r == s[|s| - |r|..]
    ensures forall k :: 0 <= k < |s| - |r| ==> IsSpace(s[k])
    ensures r == [] || !IsSpace(r[0])
  {
    if s != [] && IsSpace(s[0]) then StripLeft(s[1..]) else s
  }

  /** `s` without its trailing whitespace. */
  function StripRight(s: string): (r: string)
    ensures |r| <= |s| && r == s[..|r|]
    ensures forall k :: |r| <= k < |s| ==> IsSpace(s[k])
    ensures r == [] || !IsSpace(r[|r| - 1])
  {
    if s != [] && IsSpace(s[|s| - 1]) then StripRight(s[..|s| - 1]) else s
  }

  /**
   * `s` without its leading and trailing whitespace: what is left neither
   * starts nor ends with whitespace, and it is empty exactly when `s` is
   * all whitespace.
   */
  function Strip(s: string): (r: string)
    ensures |r| <= |s|
    ensures r == [] || (!IsSpace(r[0]) && !IsSpace(r[|r| - 1]))
    ensures r == [] <==> forall k :: 0 <= k < |s| ==> IsSpace(s[k])
  {
    StripRight(StripLeft(s))
  }

  function RowFields(row: PlanetRow): seq<Field> {
    [row.px, row.py, row.pz, row.vx, row.vy, row.vz]
  }

  predicate AllBlank(row: PlanetRow) {
    forall f :: f in RowFields(row) ==> f == Blank
  }

  predicate RowParses(row: PlanetRow) {
    forall f :: f in RowFields(row) ==> !f.Unparsable?
  }

  /** A planet-row entry: blank counts as 0.0. */
  function Lenient(f: Field): real
    requires !f.Unparsable?
  {
    if f.Blank? then 0.0 else f.value
  }

  /** The six components of an override that carries both vectors, position first. */
  function OverrideComponents(o: Override): seq<real>
    requires o.pos.Some? && o.v.Some?
  {
    [o.pos.value.x, o.pos.value.y, o.pos.value.z, o.v.value.x, o.v.value.y, o.v.value.z]
  }

  /**
   * The override a row that is neither all blank nor unparsable produces:
   * both vectors, always, each component the number typed in its entry or
   * 0.0 where the entry is blank.
   */
  function RowOverride(row: PlanetRow): (r: Override)
    requires RowParses(row)
    ensures r.pos.Some? && r.v.Some?
    ensures forall k :: 0 <= k < 6 ==>
      OverrideComponents(r)[k] == (if RowFields(row)[k].Number? then RowFields(row)[k].value else 0.0)
  {
    Override(
      Some(Vec3(Lenient(row.px), Lenient(row.py), Lenient(row.pz))),
      Some(Vec3(Lenient(row.vx), Lenient(row.vy), Lenient(row.vz))))
  }

  function CustomFields(form: CustomForm): seq<Field> {
    [form.mass, form.radius, form.px, form.py, form.pz, form.vx, form.vy, form.vz]
  }

  /** A named extra body needs a number in every one of its fields. */
  predicate CustomComplete(form: CustomForm) {
    forall f :: f in CustomFields(form) ==> f.Number?
  }

  /** Every field of a complete form holds a number. */
  lemma CompleteFields(form: CustomForm)
    requires CustomComplete(form)
    ensures form.mass.Number? && form.radius.Number?
    ensures form.px.Number? && form.py.Number? && form.pz.Number?
    ensures form.vx.Number? && form.vy.Number? && form.vz.Number?
  {
    var fs := CustomFields(form);
    assert fs[0] in fs && fs[1] in fs && fs[2] in fs && fs[3] in fs;
    assert fs[4] in fs && fs[5] in fs && fs[6] in fs && fs[7] in fs;
  }

  /** The eight numbers of an extra body, in the order of the form's fields. */
  function CustomValues(c: CustomBody): seq<real> {
    [c.mass, c.radius, c.pos.x, c.pos.y, c.pos.z, c.v.x, c.v.y, c.v.z]
  }

  /** A body whose eight numbers are the ones in a form's fields matches it field by field. */
  lemma FieldsMatch(form: CustomForm, c: CustomBody)
    requires form.mass == Number(c.mass) && form.radius == Number(c.radius)
    requires form.px == Number(c.pos.x) && form.py == Number(c.pos.y) && form.pz == Number(c.pos.z)
    requires form.vx == Number(c.v.x) && form.vy == Number(c.v.y) && form.vz == Number(c.v.z)
    ensures forall k :: 0 <= k < 8 ==> CustomFields(form)[k] == Number(CustomValues(c)[k])
  {
    var ns := CustomValues(c);
    assert CustomFields(form) == [Number(ns[0]), Number(ns[1]), Number(ns[2]), Number(ns[3]),
      Number(ns[4]), Number(ns[5]), Number(ns[6]), Number(ns[7])];
  }

  /** The extra body a complete form describes: its stripped name and the eight numbers typed. */
  function CustomOf(form: CustomForm): (r: CustomBody)
    requires CustomComplete(form)
    ensures r.name == Strip(form.name)
    ensures forall k :: 0 <= k < 8 ==> CustomFields(form)[k] == Number(CustomValues(r)[k])
  {
    CompleteFields(form);
    var r := CustomBody(
      Strip(form.name), form.mass.value, form.radius.value,
      Vec3(form.px.value, form.py.value, form.pz.value),
      Vec3(form.vx.value, form.vy.value, form.vz.value));
    FieldsMatch(form, r);
    r
  }

  predicate DistinctNames(rows: seq<PlanetRow>) {
    forall a, b :: 0 <= a < b < |rows| ==> rows[a].name != rows[b].name
  }

  /**
   * `overrides` holds exactly the rows among the first `n` that are not all
   * blank, each under its planet's name and carrying that row's override.
   */
  ghost predicate Collected(rows: seq<PlanetRow>, n: nat, overrides: map<string, Override>)
    requires n <= |rows| && forall k :: 0 <= k < n ==> RowParses(rows[k])
  {
    && (forall name :: name in overrides <==>
          exists k :: 0 <= k < n && rows[k].name == name && !AllBlank(rows[k]))
    && (forall k :: 0 <= k < n && !AllBlank(rows[k]) ==>
          overrides[rows[k].name] == RowOverride(rows[k]))
  }

  /** Passing over an all-blank row keeps `Collected`. */
  lemma CollectedSkip(rows: seq<PlanetRow>, n: nat, overrides: map<string, Override>)
    requires n < |rows| && forall k :: 0 <= k <= n ==> RowParses(rows[k])
    requires Collected(rows, n, overrides) && AllBlank(rows[n])
    ensures Collected(rows, n + 1, overrides)
  {
  }

  /** Recording the override of a row that is not all blank keeps `Collected`. */
  lemma CollectedAdd(rows: seq<PlanetRow>, n: nat, overrides: map<string, Override>)
    requires DistinctNames(rows) && n < |rows| && forall k :: 0 <= k <= n ==> RowParses(rows[k])
    requires Collected(rows, n, overrides) && !AllBlank(rows[n])
    ensures Collected(rows, n + 1, overrides[rows[n].name := RowOverride(rows[n])])
  {
    var next := overrides[rows[n].name := RowOverride(rows[n])];
    forall name | name in next
      ensures exists k :: 0 <= k < n + 1 && rows[k].name == name && !AllBlank(rows[k])
    {
      if name != rows[n].name {
        var k :| 0 <= k < n && rows[k].name == name && !AllBlank(rows[k]);
      }
    }
    forall k | 0 <= k < n + 1 && !AllBlank(rows[k])
      ensures rows[k].name in next && next[rows[k].name] == RowOverride(rows[k])
    {
      if k < n {
        assert rows[k].name != rows[n].name;
      }
    }
  }

  /**
   * The planet rows of the form: the overrides they ask for, or nothing
   * when some entry the conversion refuses makes the form fail.
   */
  method CollectOverrides(rows: seq<PlanetRow>) returns (r: Option<map<string, Override>>)
    requires DistinctNames(rows)
    ensures r.None? <==> exists k :: 0 <= k < |rows| && !RowParses(rows[k])
    ensures r.Some? ==> Collected(rows, |rows|, r.value)
  {
    var overrides: map<string, Override> := map[];
    for i := 0 to |rows|
      invariant forall k :: 0 <= k < i ==> RowParses(rows[k])
      invariant Collected(rows, i, overrides)
    {
      var row := rows[i];
      if AllBlank(row) {
        CollectedSkip(rows, i, overrides);
        continue;
      }
      if !RowParses(row) {
        return None;
      }
      CollectedAdd(rows, i, overrides);
      overrides := overrides[row.name := RowOverride(row)];
    }
    return Some(overrides);
  }

  /**
   * The launch button: every planet row that is not all blank becomes an
   * override carrying both vectors; a non-blank name asks for an extra
   * body, which then needs every field.  Any entry the conversion refuses,
   * or a missing field of a named extra body, rejects the whole form.
   */
  method ManualLaunch(rows: seq<PlanetRow>, form: CustomForm) returns (outcome: Outcome)
    requires DistinctNames(rows)
    ensures outcome.Rejected? <==>
      (exists k :: 0 <= k < |rows| && !RowParses(rows[k]))
      || (Strip(form.name) != [] && !CustomComplete(form))
    ensures outcome.Launched? ==>
      && Collected(rows, |rows|, outcome.overrides)
      && (outcome.custom.None? <==> Strip(form.name) == [])
      && (outcome.custom.Some? ==> outcome.custom.value == CustomOf(form))
  {
    var overrides := CollectOverrides(rows);
    if overrides.None? {
      return Rejected;
    }
    var name := Strip(form.name);
    var custom: Option<CustomBody> := None;
    if name != [] {
      if !CustomComplete(form) {
        return Rejected;
      }
      custom := Some(CustomOf(form));
    }
    return Launched(overrides.value, custom);
  }
}
