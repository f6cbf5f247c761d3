/** The Rust type names the schema generator writes into generated code
    (`huus_macros_support/src/definition/output.rs`; `definition/generator.rs`
    repeats the same tables), and the collection type name the generator
    derives from a collection name. */
module TypeNames {
  import opened Wrappers
  import opened Schema
  import Text

  // ----- Built-in types -----------------------------------------------------

  /** `BuiltInType::to_data` (also `to_value`, which is the same table). */
  function BuiltInData(b: BuiltInType): string {
    match b
    case F64 => "f64"
    case String => "String"
    case ObjectId => "huus::types::ObjectId"
    case Bool => "bool"
    case Date => "huus::types::Date"
    case I32 => "i32"
    case I64 => "i64"
    case Bson => "bson::Document"
  }

  /** The runtime entry name shared by `to_filter` and `to_update`. */
  function BuiltInEntry(b: BuiltInType): string {
    match b
    case F64 => "F64Entry"
    case String => "StringEntry"
    case ObjectId => "ObjectIdEntry"
    case Bool => "BooleanEntry"
    case Date => "DateEntry"
    case I32 => "I32Entry"
    case I64 => "I64Entry"
    case Bson => "BsonEntry"
  }

  const FiltersPath: string := "huus::filters::"
  const UpdatesPath: string := "huus::updates::"
  const ValuesPath: string := "huus::values::"

  /** `BuiltInType::to_filter` and `to_update`: the runtime entry of that type,
      from the filter or the update module. */
  function BuiltInFilter(b: BuiltInType): (r: string)
    ensures Text.StartsWith(r, FiltersPath)
  {
    FiltersPath + BuiltInEntry(b)
  }

  function BuiltInUpdate(b: BuiltInType): (r: string)
    ensures Text.StartsWith(r, UpdatesPath)
  {
    UpdatesPath + BuiltInEntry(b)
  }

  /** `BuiltInType::from_doc_getter`: the document getter for the type. */
  function BuiltInGetter(b: BuiltInType): string {
    match b
    case F64 => "get_f64"
    case String => "get_str"
    case ObjectId => "get_object_id"
    case Bool => "get_bool"
    case Date => "get_utc_datetime"
    case I32 => "get_i32"
    case I64 => "get_i64"
    case Bson => "get_document"
  }

  /** `BuiltInType::to_conversion`: how a fetched value becomes the field. */
  function BuiltInConversion(b: BuiltInType): string {
    match b
    case F64 => "value"
    case String => "value.to_string()"
    case ObjectId => "value.clone()"
    case Bool => "value"
    case Date => "value.clone()"
    case I32 => "value"
    case I64 => "value"
    case Bson => "value.clone()"
  }

  /** Distinct built-in types have distinct data, filter, update and getter names. */
  lemma BuiltInNamesInjective(a: BuiltInType, b: BuiltInType)
    requires a != b
    ensures BuiltInData(a) != BuiltInData(b)
    ensures BuiltInFilter(a) != BuiltInFilter(b)
    ensures BuiltInUpdate(a) != BuiltInUpdate(b)
    ensures BuiltInGetter(a) != BuiltInGetter(b)
  {
    assert BuiltInFilter(a)[|FiltersPath|..] == BuiltInEntry(a);
    assert BuiltInFilter(b)[|FiltersPath|..] == BuiltInEntry(b);
    assert BuiltInUpdate(a)[|UpdatesPath|..] == BuiltInEntry(a);
    assert BuiltInUpdate(b)[|UpdatesPath|..] == BuiltInEntry(b);
  }

  // ----- Defined types ------------------------------------------------------

  /** The five types generated for every defined entity. */
  datatype Generated = DataType | InsertType | FilterType | ValueType | UpdateType

  function Suffix(k: Generated): (s: string)
    ensures |s| >= 4
  {
    match k
    case DataType => "Data"
    case InsertType => "Insert"
    case FilterType => "Filter"
    case ValueType => "Value"
    case UpdateType => "Update"
  }

  /** `DefinedType::to_data`, `to_insert`, `to_filter`, `to_value`, `to_update`:
      the entity name followed by the kind's suffix. */
  function GeneratedName(t: DefinedType, k: Generated): (r: string)
    ensures |r| == |t.name| + |Suffix(k)|
    ensures r[..|t.name|] == t.name && r[|t.name|..] == Suffix(k)
  {
    t.name + Suffix(k)
  }

  function DataName(t: DefinedType): string { GeneratedName(t, DataType) }
  function InsertName(t: DefinedType): string { GeneratedName(t, InsertType) }
  function FilterName(t: DefinedType): string { GeneratedName(t, FilterType) }
  function ValueName(t: DefinedType): string { GeneratedName(t, ValueType) }
  function UpdateName(t: DefinedType): string { GeneratedName(t, UpdateType) }

  /** The last two characters of a string. */
  function Tail2(s: string): string
    requires |s| >= 2
  {
    s[|s| - 2..]
  }

  lemma Tail2OfSuffix(t: DefinedType, k: Generated)
    ensures Tail2(GeneratedName(t, k)) == Tail2(Suffix(k))
  {
    var r := GeneratedName(t, k);
    assert r[|r| - 2..] == r[|t.name|..][|Suffix(k)| - 2..];
  }

  /** Generated names never clash: two generated names are equal only for the
      same entity name and the same kind. */
  lemma {:induction false} GeneratedNamesDistinct(a: DefinedType, ka: Generated, b: DefinedType, kb: Generated)
    requires GeneratedName(a, ka) == GeneratedName(b, kb)
    ensures a == b && ka == kb
  {
    Tail2OfSuffix(a, ka);
    Tail2OfSuffix(b, kb);
    assert ka == kb;
    var r := GeneratedName(a, ka);
    assert |a.name| == |b.name|;
    assert a.name == r[..|a.name|] == b.name;
  }

  // ----- Variants -----------------------------------------------------------

  /** `Variant::to_data`. */
  function VariantData(v: Variant): string {
    if v.Field? then BuiltInData(v.field) else DataName(v.Defined())
  }

  /** `Variant::to_value`: the built-in value name or the defined `…Value` type. */
  function VariantValue(v: Variant): string {
    if v.Field? then BuiltInData(v.field) else ValueName(v.Defined())
  }

  /** `Variant::to_long_filter`: built-ins use their filter entry; structs and
      unions are filtered through an object entry over their filter and data
      types; enums through an enum entry over their data type. */
  function LongFilter(v: Variant): (r: string)
    ensures Text.StartsWith(r, FiltersPath)
  {
    match v
    case Field(b) => BuiltInFilter(b)
    case EnumRef(t) => FiltersPath + "EnumEntry<" + DataName(t) + ">"
    case _ => FiltersPath + "ObjectEntry<" + FilterName(v.Defined()) + ", " + DataName(v.Defined()) + ">"
  }

  /** `Variant::to_short_filter`: an enum is filtered by its data type. */
  function ShortFilter(v: Variant): string {
    match v
    case Field(b) => BuiltInFilter(b)
    case EnumRef(t) => DataName(t)
    case _ => FilterName(v.Defined())
  }

  /** `Variant::to_long_update` (`to_update` in the generator's copy). */
  function LongUpdate(v: Variant): (r: string)
    ensures Text.StartsWith(r, UpdatesPath)
  {
    match v
    case Field(b) => BuiltInUpdate(b)
    case EnumRef(t) => UpdatesPath + "EnumEntry<" + ValueName(t) + ">"
    case _ => UpdatesPath + "ObjectEntry<" + UpdateName(v.Defined()) + ", " + ValueName(v.Defined()) + ">"
  }

  /** `Variant::to_short_update`. */
  function ShortUpdate(v: Variant): string {
    if v.Field? then BuiltInUpdate(v.field) else UpdateName(v.Defined())
  }

  /** `Variant::from_doc_getter`: enums are read as strings, other defined
      types as documents. */
  function VariantGetter(v: Variant): string {
    match v
    case Field(b) => BuiltInGetter(b)
    case EnumRef(_) => "get_str"
    case _ => "get_document"
  }

  /** `Variant::to_conversion`. */
  function VariantConversion(v: Variant): string {
    match v
    case Field(b) => BuiltInConversion(b)
    case EnumRef(t) => DataName(t) + "::from_str(&value)?"
    case _ => DataName(v.Defined()) + "::from_doc(value.clone())?"
  }

  /** No built-in data name ends like a generated data name. */
  lemma BuiltInDataNotGenerated(b: BuiltInType, t: DefinedType)
    ensures BuiltInData(b) != DataName(t)
  {
    var r := DataName(t);
    assert r[|r| - 1] == Suffix(DataType)[3];
  }

  /** The data name of a variant is unambiguous: it tells built-ins apart from
      defined types, and identifies the built-in or the defined name. */
  lemma VariantDataUnambiguous(v: Variant, w: Variant)
    requires VariantData(v) == VariantData(w)
    ensures v.Field? <==> w.Field?
    ensures v.Field? ==> v == w
    ensures !v.Field? ==> v.Defined() == w.Defined()
  {
    if v.Field? && !w.Field? {
      BuiltInDataNotGenerated(v.field, w.Defined());
    } else if !v.Field? && w.Field? {
      BuiltInDataNotGenerated(w.field, v.Defined());
    } else if v.Field? {
      if v.field != w.field {
        BuiltInNamesInjective(v.field, w.field);
      }
    } else {
      GeneratedNamesDistinct(v.Defined(), DataType, w.Defined(), DataType);
    }
  }

  // ----- Members ------------------------------------------------------------

  /** `Member::to_data`: the data type wrapped in its container. */
  function MemberData(m: Member): string {
    var variant := VariantData(m.variant);
    match m.container
    case Array => "Vec<" + variant + ">"
    case HashMap(k) => "std::collections::HashMap<" + VariantData(k) + ", " + variant + ">"
    case BTreeMap(k) => "std::collections::BTreeMap<" + VariantData(k) + ", " + variant + ">"
    case Plain => variant
  }

  /** `Member::to_filter`: arrays get an array entry over the short filter and
      the data type, maps a map entry over key and value data types, and plain
      members the variant's long filter. Every one is a runtime filter entry. */
  function MemberFilter(m: Member): (r: string)
    ensures Text.StartsWith(r, FiltersPath)
    ensures m.container.IsPlain() ==> r == LongFilter(m.variant)
  {
    match m.container
    case Array => FiltersPath + "ArrayEntry<" + ShortFilter(m.variant) + ", " + VariantData(m.variant) + ">"
    case BTreeMap(k) => FiltersPath + "BTreeMapEntry<" + VariantData(k) + ", " + VariantData(m.variant) + ">"
    case HashMap(k) => FiltersPath + "HashMapEntry<" + VariantData(k) + ", " + VariantData(m.variant) + ">"
    case Plain => LongFilter(m.variant)
  }

  /** `Member::to_value`: every member value is a runtime value entry. */
  function MemberValue(m: Member): (r: string)
    ensures Text.StartsWith(r, ValuesPath)
  {
    match m.container
    case Array => ValuesPath + "ArrayEntry<" + VariantValue(m.variant) + ">"
    case HashMap(k) =>
      ValuesPath + "Entry<std::collections::HashMap<" + VariantValue(k) + ", " + VariantData(m.variant) + ">>"
    case BTreeMap(k) =>
      ValuesPath + "Entry<std::collections::BTreeMap<" + VariantValue(k) + ", " + VariantData(m.variant) + ">>"
    case Plain => ValuesPath + "Entry<" + VariantValue(m.variant) + ">"
  }

  /** `Member::to_update`: arrays get an array entry over the short update and
      the value type, maps a map entry over key and value data types, plain
      members the variant's long update. Every one is a runtime update entry. */
  function MemberUpdate(m: Member): (r: string)
    ensures Text.StartsWith(r, UpdatesPath)
    ensures m.container.IsPlain() ==> r == LongUpdate(m.variant)
  {
    match m.container
    case Array => UpdatesPath + "ArrayEntry<" + ShortUpdate(m.variant) + ", " + VariantValue(m.variant) + ">"
    case BTreeMap(k) => UpdatesPath + "BTreeMapEntry<" + VariantData(k) + ", " + VariantData(m.variant) + ">"
    case HashMap(k) => UpdatesPath + "HashMapEntry<" + VariantData(k) + ", " + VariantData(m.variant) + ">"
    case Plain => LongUpdate(m.variant)
  }

  /** `Member::from_doc_getter`: arrays are read as arrays, maps as documents,
      plain members with the variant's getter. */
  function MemberGetter(m: Member): (r: string)
    ensures m.container.IsArray() ==> r == "get_array"
    ensures m.container.IsMap() ==> r == "get_document"
    ensures m.container.IsPlain() ==> r == VariantGetter(m.variant)
  {
    match m.container
    case Array => "get_array"
    case HashMap(_) => "get_document"
    case BTreeMap(_) => "get_document"
    case Plain => VariantGetter(m.variant)
  }

  /** `Member::to_conversion`: every container converts through
      `huus_into_struct`; a plain member uses its variant's conversion. */
  function MemberConversion(m: Member): (r: string)
    ensures !m.container.IsPlain() ==> r == "value.clone().huus_into_struct()?"
    ensures m.container.IsPlain() ==> r == VariantConversion(m.variant)
  {
    if m.container.Plain? then VariantConversion(m.variant) else "value.clone().huus_into_struct()?"
  }

  /** `Member::to_default`: containers have an empty default, plain members none. */
  function MemberDefault(m: Member): (r: Option<string>)
    ensures r.Some? <==> !m.container.IsPlain()
  {
    match m.container
    case Array => Some("Vec::new()")
    case HashMap(_) => Some("std::collections::HashMap::new()")
    case BTreeMap(_) => Some("std::collections::BTreeMap::new()")
    case Plain => None
  }

  // ----- Collection type names ----------------------------------------------

  /** A character that takes more than one byte in UTF-8. */
  predicate Wide(c: char) {
    c as int >= 0x80
  }

  /** `capitalize` inside `make_coll_name`: the first character upper-cased.
      The rest is taken as the byte slice `&string[1..]`, which panics (`None`)
      when the first character is wide; upper-casing is therefore only ever
      applied to an ASCII character. */
  function Capitalize(s: string): (r: Option<string>)
    ensures r.Some? <==> |s| == 0 || !Wide(s[0])
    ensures r.Some? ==> |r.value| == |s|
    ensures r.Some? && |s| > 0 ==> r.value[0] == Text.ToUpper(s[0]) && r.value[1..] == s[1..]
  {
    if |s| == 0 then Some("")
    else if Wide(s[0]) then None
    else Some([Text.ToUpper(s[0])] + s[1..])
  }

  /** No piece begins with a wide character; the first piece is looked at only
      when `first` holds. */
  predicate NarrowStarts(parts: seq<string>, first: bool) {
    forall i :: 0 <= i < |parts| && (0 < i || first) && |parts[i]| > 0 ==> !Wide(parts[i][0])
  }

  function CapitalizeAll(parts: seq<string>): (r: Option<seq<string>>)
    ensures r.Some? <==> NarrowStarts(parts, true)
    ensures r.Some? ==> |r.value| == |parts| && forall i :: 0 <= i < |parts| ==> Capitalize(parts[i]) == Some(r.value[i])
  {
    if NarrowStarts(parts, true) then
      Some(seq(|parts|, i requires 0 <= i < |parts| => Capitalize(parts[i]).value))
    else
      assert exists i :: 0 <= i < |parts| && Capitalize(parts[i]).None?;
      None
  }

  /** Some piece of `s`, split on `_`, begins with a wide character: at the very
      start (counted only when `first` holds) or right after an underscore. */
  predicate WidePieceStart(s: string, first: bool) {
    exists i {:trigger Wide(s[i])} :: 0 <= i < |s| && ((i == 0 && first) || (0 < i && s[i - 1] == '_')) && Wide(s[i])
  }

  /** The pieces of a split begin with narrow characters exactly when no wide
      character starts a piece of the string. */
  lemma {:induction false} SplitStarts(s: string, first: bool)
    ensures NarrowStarts(Text.Split(s, '_'), first) <==> !WidePieceStart(s, first)
    decreases |s|
  {
    if |s| > 0 {
      if s[0] == '_' {
        SplitStarts(s[1..], true);
        SplitStartsUnderscore(s, first);
      } else {
        SplitStarts(s[1..], false);
        SplitStartsOther(s, first);
      }
    }
  }

  /** The step of `SplitStarts` for a string that begins with `_`. */
  lemma SplitStartsUnderscore(s: string, first: bool)
    requires |s| > 0 && s[0] == '_'
    requires NarrowStarts(Text.Split(s[1..], '_'), true) <==> !WidePieceStart(s[1..], true)
    ensures NarrowStarts(Text.Split(s, '_'), first) <==> !WidePieceStart(s, first)
  {
    var rest := Text.Split(s[1..], '_');
    var r := Text.Split(s, '_');
    assert r == [""] + rest;
    assert forall i :: 0 < i < |r| ==> r[i] == rest[i - 1];
    if WidePieceStart(s[1..], true) {
      var j :| 0 <= j < |s[1..]| && ((j == 0 && true) || (0 < j && s[1..][j - 1] == '_')) && Wide(s[1..][j]);
      assert s[j + 1] == s[1..][j];
    }
    if WidePieceStart(s, first) {
      var i :| 0 <= i < |s| && ((i == 0 && first) || (0 < i && s[i - 1] == '_')) && Wide(s[i]);
      assert !Wide('_');
      assert i > 0;
      var t := s[1..];
      assert t[i - 1] == s[i];
      if i > 1 {
        assert t[i - 2] == s[i - 1];
      }
      assert WidePieceStart(t, true);
    }
    if NarrowStarts(rest, true) {
      forall i | 0 <= i < |r| && (0 < i || first) && |r[i]| > 0
        ensures !Wide(r[i][0])
      {
        assert r[i] == rest[i - 1];
      }
    }
    if NarrowStarts(r, first) {
      forall j | 0 <= j < |rest| && |rest[j]| > 0
        ensures !Wide(rest[j][0])
      {
        assert r[j + 1] == rest[j];
      }
    }
  }

  /** The step of `SplitStarts` for a string that begins with another character. */
  lemma SplitStartsOther(s: string, first: bool)
    requires |s| > 0 && s[0] != '_'
    requires NarrowStarts(Text.Split(s[1..], '_'), false) <==> !WidePieceStart(s[1..], false)
    ensures NarrowStarts(Text.Split(s, '_'), first) <==> !WidePieceStart(s, first)
  {
    WideStartOther(s, first);
    NarrowStartsOther(s, first);
  }

  /** A string that begins with another character has a wide piece start
      exactly at its first character (when counted) or further on. */
  lemma WideStartOther(s: string, first: bool)
    requires |s| > 0 && s[0] != '_'
    ensures WidePieceStart(s, first) <==> (first && Wide(s[0])) || WidePieceStart(s[1..], false)
  {
    if WidePieceStart(s[1..], false) {
      var j :| 0 <= j < |s[1..]| && ((j == 0 && false) || (0 < j && s[1..][j - 1] == '_')) && Wide(s[1..][j]);
      var i := j + 1;
      assert s[i] == s[1..][j] && s[i - 1] == s[1..][j - 1];
      assert WidePieceStart(s, first);
    }
    if first && Wide(s[0]) {
      var i := 0;
      assert i == 0 && first && Wide(s[i]);
      assert WidePieceStart(s, first);
    }
    if WidePieceStart(s, first) {
      var i :| 0 <= i < |s| && ((i == 0 && first) || (0 < i && s[i - 1] == '_')) && Wide(s[i]);
      if i > 0 {
        assert i > 1;
        var t := s[1..];
        assert t[i - 1] == s[i] && t[i - 2] == s[i - 1];
        assert WidePieceStart(t, false);
      }
    }
  }

  /** The first character of a string that begins with another character
      starts its first piece; the other pieces are those of the rest. */
  lemma NarrowStartsOther(s: string, first: bool)
    requires |s| > 0 && s[0] != '_'
    ensures NarrowStarts(Text.Split(s, '_'), first) <==>
              (first ==> !Wide(s[0])) && NarrowStarts(Text.Split(s[1..], '_'), false)
  {
    var rest := Text.Split(s[1..], '_');
    var r := Text.Split(s, '_');
    assert r == [[s[0]] + rest[0]] + rest[1..];
    assert forall i :: 0 < i < |r| ==> r[i] == rest[i];
    assert r[0][0] == s[0];
    assert |r[0]| > 0;
    if NarrowStarts(rest, false) && (first ==> !Wide(s[0])) {
      forall i | 0 <= i < |r| && (0 < i || first) && |r[i]| > 0
        ensures !Wide(r[i][0])
      {
        if 0 < i {
          assert r[i] == rest[i];
        }
      }
    }
    if NarrowStarts(r, first) {
      forall j | 0 < j < |rest| && |rest[j]| > 0
        ensures !Wide(rest[j][0])
      {
        assert r[j] == rest[j];
      }
    }
  }

  /** `GeneratorCallback::make_coll_name`: the collection name split on `_`,
      each piece capitalised, the pieces concatenated. It panics (`None`)
      exactly when a piece begins with a wide character. */
  function MakeCollName(collection: string): (r: Option<string>)
    ensures r.None? <==> WidePieceStart(collection, true)
  {
    SplitStarts(collection, true);
    var caps := CapitalizeAll(Text.Split(collection, '_'));
    if caps.Some? then Some(Text.Concat(caps.value)) else None
  }

  /** The number of underscores in a string. */
  function Underscores(s: string): nat
    decreases |s|
  {
    if |s| == 0 then 0 else (if s[0] == '_' then 1 else 0) + Underscores(s[1..])
  }

  lemma {:induction false} SplitLengths(s: string)
    ensures Text.SumLengths(Text.Split(s, '_')) + Underscores(s) == |s|
    decreases |s|
  {
    if |s| > 0 {
      SplitLengths(s[1..]);
      var rest := Text.Split(s[1..], '_');
      if s[0] == '_' {
        assert Text.Split(s, '_') == [""] + rest;
        assert ([""] + rest)[1..] == rest;
      } else {
        var r := Text.Split(s, '_');
        assert r == [[s[0]] + rest[0]] + rest[1..];
        assert r[1..] == rest[1..];
        assert Text.SumLengths(rest) == |rest[0]| + Text.SumLengths(rest[1..]);
      }
    }
  }

  lemma {:induction false} CapitalizeAllLengths(parts: seq<string>, caps: seq<string>)
    requires |caps| == |parts|
    requires forall i :: 0 <= i < |parts| ==> Capitalize(parts[i]) == Some(caps[i])
    ensures Text.SumLengths(caps) == Text.SumLengths(parts)
    decreases |parts|
  {
    if |parts| > 0 {
      CapitalizeAllLengths(parts[1..], caps[1..]);
    }
  }

  /** An upper-cased character is an underscore only if it was one. */
  lemma ToUpperKeepsUnderscore(c: char)
    ensures Text.ToUpper(c) == '_' <==> c == '_'
  {
  }

  /** The collection type name has no underscore, and is shorter than the
      collection name by exactly its number of underscores; empty pieces add
      nothing. */
  lemma MakeCollNameShape(collection: string)
    requires MakeCollName(collection).Some?
    ensures '_' !in MakeCollName(collection).value
    ensures |MakeCollName(collection).value| == |collection| - Underscores(collection)
    ensures Capitalize("") == Some("")
  {
    var parts := Text.Split(collection, '_');
    var caps := CapitalizeAll(parts).value;
    assert MakeCollName(collection).value == Text.Concat(caps);
    Text.ConcatMembership(caps, '_');
    forall i | 0 <= i < |caps|
      ensures '_' !in caps[i]
    {
      assert '_' !in parts[i];
      if |parts[i]| > 0 {
        ToUpperKeepsUnderscore(parts[i][0]);
        assert caps[i] == [Text.ToUpper(parts[i][0])] + parts[i][1..];
      }
    }
    Text.ConcatLength(caps);
    CapitalizeAllLengths(parts, caps);
    SplitLengths(collection);
  }

  /** The name the collection-tests use: `coll_3` becomes `Coll3`. */
  lemma MakeCollNameExample()
    ensures MakeCollName("coll_3") == Some("Coll3")
  {
    CollPieces();
    CollCapitalized();
    assert Text.Concat(["Coll", "3"]) == "Coll3";
  }

  /** `coll_3` splits on its underscore into `coll` and `3`. */
  lemma CollPieces()
    ensures Text.Split("coll_3", '_') == ["coll", "3"]
  {
    assert "coll_3" == "coll" + ['_'] + "3";
    Text.SplitAfterPiece("coll", '_', "3");
    Text.SplitNoSeparator("3", '_');
  }

  /** `coll` and `3` capitalize to `Coll` and `3`. */
  lemma CollCapitalized()
    ensures CapitalizeAll(["coll", "3"]) == Some(["Coll", "3"])
  {
    assert "coll"[0] == 'c' && !Wide('c') && "coll"[1..] == "oll";
    var coll := Capitalize("coll");
    assert coll.Some? && coll.value == [Text.ToUpper('c')] + "oll" == "Coll";
    assert "3"[0] == '3' && !Wide('3');
    var three := Capitalize("3");
    assert three.Some? && three.value == "3";
    var parts := ["coll", "3"];
    assert NarrowStarts(parts, true) by {
      assert parts[0] == "coll" && parts[1] == "3";
    }
    var caps := CapitalizeAll(parts);
    assert caps.Some? && |caps.value| == 2;
    assert Capitalize(parts[0]) == Some(caps.value[0]) && Capitalize(parts[1]) == Some(caps.value[1]);
    assert caps.value == ["Coll", "3"];
  }

  /** A collection name with a wide character after an underscore makes the
      generator panic: `coll_é`. */
  lemma MakeCollNameWideExample()
    ensures MakeCollName("coll_\U{E9}") == None
  {
    assert "coll_\U{E9}"[4] == '_' && Wide("coll_\U{E9}"[5]);
  }
}
