/** Properties of the query-formulation validator
    (`huus_macros_support/src/formulation/validator.rs`) that relate several
    of its steps: how attributes resolve, which members count as visited,
    when required members are missing, and what an accepted query keeps. */
module FormulationProperties {
  import opened Wrappers
  import opened Schema
  import opened FormulationOutput
  import opened FormulationInput
  import opened FormulationValidator
  import opened FormulationConversion
  import Seqs
  import DefinitionInput
  import DefinitionValidator

  // ----------------------------------------------------------------------------------------------
  // Resolving attributes

  /** An index after an array member addresses one element: the attribute
      resolves to the member's type without its container, or panics when
      that type names no entity. */
  lemma ArrayIndexAddressesElement(s: Schema, st: Struct, key: string, index: Part)
    requires StructEntity(st) in s.entities
    requires FirstMember(st.members, key) < |st.members|
    requires st.members[FirstMember(st.members, key)].container == Array && !index.Key?
    ensures var m := st.members[FirstMember(st.members, key)];
            var r := FindMember(s, st, AttributeTemplate([Key(key), index]));
            (VariantResolves(s, m.variant) ==> r.Ok? && r.value.container == Plain && r.value.variant == m.variant) &&
            (!VariantResolves(s, m.variant) ==> r == Err(Panicked))
  {
    var attr := AttributeTemplate([Key(key), index]);
    assert FormulationInput.Pop(attr).1 == AttributeTemplate([index]);
    assert FormulationInput.Pop(AttributeTemplate([index])).1.parts == [];
  }

  /** A key after a member of a built-in type is refused as a field on a
      plain value, and after an enum as a field on an enum; after a type no
      entity has, the lookup panics. The index of an array is the only part a
      built-in member may be followed by. */
  lemma NoFieldsBelowLeaves(s: Schema, st: Struct, key: string, next: string)
    requires StructEntity(st) in s.entities
    requires FirstMember(st.members, key) < |st.members|
    ensures var m := st.members[FirstMember(st.members, key)];
            var r := FindMember(s, st, AttributeTemplate([Key(key), Key(next)]));
            (m.variant.Field? ==> r == Err(FieldOnPlain)) &&
            (!m.variant.Field? && FindEntity(s, m.variant.Defined().name).None? ==> r == Err(Panicked)) &&
            (!m.variant.Field? && FindEntity(s, m.variant.Defined().name).Some? &&
               FindEntity(s, m.variant.Defined().name).value.EnumEntity?
             ==> r == Err(FieldOnEnum))
  {
    var attr := AttributeTemplate([Key(key), Key(next)]);
    assert FormulationInput.Pop(attr).1 == AttributeTemplate([Key(next)]);
  }

  /** Past a key naming a struct member (not an array with an index after it),
      the rest of the attribute is looked up in that struct. */
  lemma StructDescent(s: Schema, st: Struct, key: string, rest: seq<Part>)
    requires StructEntity(st) in s.entities && |rest| > 0
    requires FirstMember(st.members, key) < |st.members|
    requires var m := st.members[FirstMember(st.members, key)];
             !m.variant.Field? && FindEntity(s, m.variant.Defined().name).Some? &&
             FindEntity(s, m.variant.Defined().name).value.StructEntity? &&
             !(m.container.IsArray() && !rest[0].Key?)
    ensures var m := st.members[FirstMember(st.members, key)];
            var inner := FindEntity(s, m.variant.Defined().name).value;
            inner in s.entities &&
            FindMember(s, st, AttributeTemplate([Key(key)] + rest)) ==
            FindMember(s, inner.structSpec, AttributeTemplate(rest))
  {
    var attr := AttributeTemplate([Key(key)] + rest);
    assert FormulationInput.Pop(attr).1 == AttributeTemplate(rest);
  }

  /** In a schema the definition validator built, every struct member's type
      resolves, so a member never makes a lookup panic. Union choices are not
      checked there: a choice naming a missing entity or a non-struct still
      panics (`ChoiceOnEnumPanics`). */
  lemma BuiltMembersResolve(ts: seq<DefinitionInput.EntityTemplate>, i: nat, k: nat)
    requires DefinitionInput.TemplatesComplete(ts) && DefinitionValidator.Build(ts).Ok?
    requires var s := DefinitionValidator.Build(ts).value;
             i < |s.entities| && s.entities[i].StructEntity? && k < |s.entities[i].structSpec.members|
    ensures var s := DefinitionValidator.Build(ts).value;
            VariantResolves(s, s.entities[i].structSpec.members[k].variant)
  {
    var s := DefinitionValidator.Build(ts).value;
    var m := s.entities[i].structSpec.members[k];
    assert DefinitionValidator.BuiltFrom(ts, ts[i], s.entities[i]);
    DefinitionValidator.BuiltKeepsName(ts, ts[i], s.entities[i]);
    var st := ts[i].structDef;
    assert m == DefinitionValidator.ConvertMembers(ts, st.members).value[k];
    DefinitionValidator.KeptFromTemplate(ts, st.members, k);
    var k2 :| 0 <= k2 < |st.members| && DefinitionValidator.ConvertMember(ts, st.members[k2]) == Ok(Ok(m));
    if !m.variant.Field? {
      var name := st.members[k2].variant.value;
      var j :| DefinitionValidator.IsFirstTemplate(ts, j, name) &&
               DefinitionValidator.KindMatches(ts[j], m.variant);
      assert DefinitionValidator.BuiltFrom(ts, ts[j], s.entities[j]);
      DefinitionValidator.BuiltKeepsName(ts, ts[j], s.entities[j]);
      assert EntityName(s.entities[j]) == m.variant.Defined().name;
    }
  }

  // ----------------------------------------------------------------------------------------------
  // Visited members and missing ones

  /** The composed attributes of the fields that pass the shape check and
      resolve to a member, whatever becomes of their values. */
  function VisitedNames(s: Schema, st: Struct, fs: seq<FieldTemplate>, conv: Conversion): set<string>
    requires StructEntity(st) in s.entities && FieldsHaveParts(fs)
  {
    PartsAt(fs);
    set i | 0 <= i < |fs| && VerifyAttribute(fs[i].attr, conv).Ok? && FindMember(s, st, fs[i].attr).Ok?
      :: ToComposed(fs[i].attr)
  }

  /** The name a single field contributes to `VisitedNames`. */
  function VisitedBy(s: Schema, st: Struct, f: FieldTemplate, conv: Conversion): set<string>
    requires StructEntity(st) in s.entities && FieldHasParts(f)
  {
    if VerifyAttribute(f.attr, conv).Ok? && FindMember(s, st, f.attr).Ok? then {ToComposed(f.attr)} else {}
  }

  lemma VisitedSplit(s: Schema, st: Struct, fs: seq<FieldTemplate>, conv: Conversion)
    requires StructEntity(st) in s.entities && FieldsHaveParts(fs) && |fs| > 0
    ensures FieldHasParts(fs[0]) && FieldsHaveParts(fs[1..])
    ensures VisitedNames(s, st, fs, conv) == VisitedBy(s, st, fs[0], conv) + VisitedNames(s, st, fs[1..], conv)
  {
    PartsAt(fs);
    var all := VisitedNames(s, st, fs, conv);
    var first := VisitedBy(s, st, fs[0], conv);
    var rest := VisitedNames(s, st, fs[1..], conv);
    forall n | n in all
      ensures n in first + rest
    {
      var i :| 0 <= i < |fs| && VerifyAttribute(fs[i].attr, conv).Ok? && FindMember(s, st, fs[i].attr).Ok?
               && n == ToComposed(fs[i].attr);
      if i > 0 {
        assert fs[1..][i - 1] == fs[i];
      }
    }
    forall n | n in rest
      ensures n in all
    {
      var i :| 0 <= i < |fs[1..]| && VerifyAttribute(fs[1..][i].attr, conv).Ok? &&
               FindMember(s, st, fs[1..][i].attr).Ok? && n == ToComposed(fs[1..][i].attr);
      assert fs[1..][i] == fs[i + 1];
    }
  }

  /** Converting fields one by one visits exactly the names `VisitedNames`
      describes. */
  lemma {:induction false} ConvertFieldsVisited(
    s: Schema, lits: LiteralParsers, st: Struct, fs: seq<FieldTemplate>, conv: Conversion)
    requires StructEntity(st) in s.entities && FieldsHaveParts(fs)
    ensures ConvertFields(s, lits, st, fs, conv).visited == VisitedNames(s, st, fs, conv)
    decreases |fs|
  {
    if |fs| > 0 {
      VisitedSplit(s, st, fs, conv);
      ConvertFieldsVisited(s, lits, st, fs[1..], conv);
    }
  }

  /** `FieldsMissing` is added once, after the object's own fields, exactly
      when the document is data and some required member was not named by a
      resolving field. */
  lemma FieldsMissingRule(s: Schema, lits: LiteralParsers, st: Struct, o: ObjectTemplate, conv: Conversion)
    requires StructEntity(st) in s.entities && FieldsHaveParts(o.fields)
    ensures var missing := conv.Data? && exists n :: n in RequiredOf(st.members) && n !in VisitedNames(s, st, o.fields, conv);
            ConvertObject(s, lits, st, o, conv).problems ==
            ConvertFields(s, lits, st, o.fields, conv).problems + (if missing then [FieldsMissing] else [])
  {
    ConvertFieldsVisited(s, lits, st, o.fields, conv);
  }

  // ----------------------------------------------------------------------------------------------
  // What an accepted query keeps

  /** A field passes the shape check and its attribute resolves. */
  predicate Resolves(s: Schema, st: Struct, f: FieldTemplate, conv: Conversion)
    requires StructEntity(st) in s.entities && FieldHasParts(f)
  {
    VerifyAttribute(f.attr, conv).Ok? && FindMember(s, st, f.attr).Ok?
  }

  /** A field converted without any problem is kept with its attribute and
      resolved. */
  lemma CleanField(s: Schema, lits: LiteralParsers, st: Struct, f: FieldTemplate, conv: Conversion)
    requires StructEntity(st) in s.entities && FieldHasParts(f)
    requires ConvertField(s, lits, st, f, conv).problems == []
    ensures ConvertField(s, lits, st, f, conv).fields == [ConvertField(s, lits, st, f, conv).fields[0]]
    ensures ConvertField(s, lits, st, f, conv).fields[0].attr == IntoAttribute(f.attr)
    ensures Resolves(s, st, f, conv)
  {
  }

  /** Fields converted without any problem are all kept, in order, with their
      attributes; each of them passed the shape check and resolved. */
  lemma {:induction false} CleanFields(
    s: Schema, lits: LiteralParsers, st: Struct, fs: seq<FieldTemplate>, conv: Conversion)
    requires StructEntity(st) in s.entities && FieldsHaveParts(fs)
    requires ConvertFields(s, lits, st, fs, conv).problems == []
    ensures forall i :: 0 <= i < |fs| ==> FieldHasParts(fs[i])
    ensures |ConvertFields(s, lits, st, fs, conv).fields| == |fs|
    ensures forall i :: 0 <= i < |fs| ==> ConvertFields(s, lits, st, fs, conv).fields[i].attr == IntoAttribute(fs[i].attr)
    ensures forall i :: 0 <= i < |fs| ==> Resolves(s, st, fs[i], conv)
    decreases |fs|
  {
    if |fs| > 0 {
      assert FieldHasParts(fs[0]);
      var first := ConvertField(s, lits, st, fs[0], conv);
      var rest := ConvertFields(s, lits, st, fs[1..], conv);
      var all := ConvertFields(s, lits, st, fs, conv);
      assert all == Combine(first, rest);
      assert first.problems == [] && rest.problems == [];
      CleanField(s, lits, st, fs[0], conv);
      CleanFields(s, lits, st, fs[1..], conv);
      KeptInOrder(first, rest, fs);
      forall i | 0 < i < |fs|
        ensures Resolves(s, st, fs[i], conv)
      {
        assert fs[1..][i - 1] == fs[i];
      }
    }
  }

  /** One kept field followed by the fields kept from the rest keep the
      attributes of all the fields, in order. */
  lemma KeptInOrder(first: FieldsOutcome, rest: FieldsOutcome, fs: seq<FieldTemplate>)
    requires |fs| > 0 && |first.fields| == 1 && first.fields[0].attr == IntoAttribute(fs[0].attr)
    requires |rest.fields| == |fs| - 1
    requires forall i :: 0 <= i < |fs| - 1 ==> rest.fields[i].attr == IntoAttribute(fs[1..][i].attr)
    ensures |Combine(first, rest).fields| == |fs|
    ensures forall i :: 0 <= i < |fs| ==> Combine(first, rest).fields[i].attr == IntoAttribute(fs[i].attr)
  {
    var all := Combine(first, rest);
    forall i | 0 < i < |fs|
      ensures all.fields[i].attr == IntoAttribute(fs[i].attr)
    {
      assert fs[1..][i - 1] == fs[i];
      assert all.fields[i] == rest.fields[i - 1];
    }
  }

  /** An accepted data document names each of its fields by a single key,
      every field resolves, every one is kept with its attribute, and every
      member that is neither optional nor an array is among them. */
  lemma DataAccepted(s: Schema, lits: LiteralParsers, collection: string, o: ObjectTemplate)
    requires FieldsHaveParts(o.fields)
    requires VerifyData(s, lits, collection, o).Ok?
    ensures FindStructForCollection(s, collection).Ok?
    ensures var st := FindStructForCollection(s, collection).value;
            var g := VerifyData(s, lits, collection, o).value;
            g.name == st.structName && |g.obj.fields| == |o.fields| &&
            (forall i :: 0 <= i < |o.fields| ==>
               Len(o.fields[i].attr) == 1 && FindMember(s, st, o.fields[i].attr).Ok? &&
               g.obj.fields[i].attr == IntoAttribute(o.fields[i].attr)) &&
            (forall j :: 0 <= j < |st.members| && !st.members[j].isOptional && !st.members[j].container.IsArray() ==>
               exists i :: 0 <= i < |o.fields| && ToComposed(o.fields[i].attr) == st.members[j].dbName)
  {
    var st := FindStructForCollection(s, collection).value;
    var out := ConvertFields(s, lits, st, o.fields, Data);
    FieldsMissingRule(s, lits, st, o, Data);
    assert out.problems == [];
    CleanFields(s, lits, st, o.fields, Data);
    forall j | 0 <= j < |st.members| && !st.members[j].isOptional && !st.members[j].container.IsArray()
      ensures exists i :: 0 <= i < |o.fields| && ToComposed(o.fields[i].attr) == st.members[j].dbName
    {
      assert st.members[j].dbName in RequiredOf(st.members);
      assert st.members[j].dbName in VisitedNames(s, st, o.fields, Data);
    }
  }

  /** An accepted filter keeps every field with its attribute, and every
      attribute resolves; no member is required. */
  lemma FilterAccepted(s: Schema, lits: LiteralParsers, collection: string, o: ObjectTemplate)
    requires FieldsHaveParts(o.fields)
    requires VerifyFilter(s, lits, collection, o).Ok?
    ensures FindStructForCollection(s, collection).Ok?
    ensures forall i :: 0 <= i < |o.fields| ==> Len(o.fields[i].attr) > 0
    ensures var st := FindStructForCollection(s, collection).value;
            var g := VerifyFilter(s, lits, collection, o).value;
            |g.obj.fields| == |o.fields| &&
            forall i :: 0 <= i < |o.fields| ==>
              FindMember(s, st, o.fields[i].attr).Ok? && g.obj.fields[i].attr == IntoAttribute(o.fields[i].attr)
  {
    var st := FindStructForCollection(s, collection).value;
    PartsAt(o.fields);
    FieldsMissingRule(s, lits, st, o, Filter);
    CleanFields(s, lits, st, o.fields, Filter);
  }

  lemma PartsAppend(xs: seq<FieldTemplate>, ys: seq<FieldTemplate>)
    requires FieldsHaveParts(xs) && FieldsHaveParts(ys)
    ensures FieldsHaveParts(xs + ys)
  {
    forall i | 0 <= i < |xs + ys|
      ensures FieldHasParts((xs + ys)[i])
    {
      if i < |xs| {
        assert (xs + ys)[i] == xs[i];
        assert FieldHasParts(xs[i]);
      } else {
        assert (xs + ys)[i] == ys[i - |xs|];
        assert FieldHasParts(ys[i - |xs|]);
      }
    }
  }

  /** Combining outcomes is associative, with no fields as its unit. */
  lemma CombineMonoid(a: FieldsOutcome, b: FieldsOutcome, c: FieldsOutcome)
    ensures Combine(NoFields, a) == a
    ensures Combine(a, Combine(b, c)) == Combine(Combine(a, b), c)
  {
    assert [] + a.fields == a.fields && [] + a.problems == a.problems && {} + a.visited == a.visited;
    assert a.fields + (b.fields + c.fields) == (a.fields + b.fields) + c.fields;
    assert a.problems + (b.problems + c.problems) == (a.problems + b.problems) + c.problems;
  }

  /** Fields are converted independently: converting two runs of fields one
      after the other gives the fields, problems and visited names of both,
      in order. */
  lemma {:induction false} ConvertFieldsAppend(
    s: Schema, lits: LiteralParsers, st: Struct, xs: seq<FieldTemplate>, ys: seq<FieldTemplate>, conv: Conversion)
    requires StructEntity(st) in s.entities && FieldsHaveParts(xs) && FieldsHaveParts(ys)
    ensures FieldsHaveParts(xs + ys)
    ensures ConvertFields(s, lits, st, xs + ys, conv) ==
            Combine(ConvertFields(s, lits, st, xs, conv), ConvertFields(s, lits, st, ys, conv))
    decreases |xs|
  {
    PartsAppend(xs, ys);
    Seqs.AppendSplit(xs, ys);
    var b := ConvertFields(s, lits, st, ys, conv);
    if |xs| == 0 {
      CombineMonoid(b, b, b);
    } else {
      assert FieldHasParts(xs[0]);
      assert FieldsHaveParts(xs[1..]);
      ConvertFieldsAppend(s, lits, st, xs[1..], ys, conv);
      var f := ConvertField(s, lits, st, xs[0], conv);
      var a := ConvertFields(s, lits, st, xs[1..], conv);
      CombineMonoid(f, a, b);
    }
  }

  // ----------------------------------------------------------------------------------------------
  // Values

  /** Code is never checked: under any conversion it is accepted, cast to the
      member's type, and to one element of it under `$addToSet`, `$pop`,
      `$pull` and `$push`. */
  lemma CodeAccepted(s: Schema, lits: LiteralParsers, m: MemberInfo, code: string, conv: Conversion)
    requires Located(s, m)
    ensures var r := ConvertValue(s, lits, m, CodeText(code), conv);
            r.problems == [] && r.result.Ok? && r.result.value.code == code &&
            r.result.value.cast.variant == m.variant &&
            r.result.value.cast.container == if conv.Update? && conv.op in {AddToSet, Pop, Pull, Push} then Plain else m.container
  {
  }

  /** An element operator on an array of a built-in type checks one element
      literal of that type, as if the member were plain. */
  lemma ElementLiteral(s: Schema, lits: LiteralParsers, m: MemberInfo, v: ValueTemplate, op: UpdateOperator)
    requires Located(s, m) && ValueHasParts(v) && !v.CodeText?
    requires ChangesElement(op) && m.container == Array && m.variant.Field?
    ensures ConvertValue(s, lits, m, v, Update(op)) == ConvertValue(s, lits, MemberInfo(m.info, m.variant, Plain), v, Data)
  {
  }

  /** Setting a struct member with `$set` and the other whole-value operators
      checks a complete data document: its own required members must all be
      named. */
  lemma SetChecksWholeStruct(s: Schema, lits: LiteralParsers, m: MemberInfo, o: ObjectTemplate, op: UpdateOperator)
    requires Located(s, m) && FieldsHaveParts(o.fields)
    requires SetsPlain(op) && m.container == Plain && m.info.EntityInfo? && m.info.entity.StructEntity?
    ensures var st := m.info.entity.structSpec;
            var r := ConvertValue(s, lits, m, NestedObject(o), Update(op));
            r.result.Ok? && r == Reported(Ok(ObjectValue(ConvertObject(s, lits, st, o, Data).result)),
                                          ConvertObject(s, lits, st, o, Data).problems)
  {
    var v := NestedObject(o);
    assert ValueHasParts(v);
    assert ConvertValue(s, lits, m, v, Update(op)) == ConvertUpdate(s, lits, m, v, op);
    assert ConvertUpdate(s, lits, m, v, op) == ConvertElement(s, lits, m.info, v, Data);
    assert ConvertElement(s, lits, m.info, v, Data) == ConvertDefinedValue(s, lits, m.info.entity, v, Data);
  }
}
