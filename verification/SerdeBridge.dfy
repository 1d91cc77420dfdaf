/** Turning typed values into Nix values and back: a serialiser that only sees the
    value, and a deserialiser directed by the type. */
module SerdeBridge {
  import opened Wrappers

  const MAX_I64 := 0x7fff_ffff_ffff_ffff
  const MAX_U64 := 0xffff_ffff_ffff_ffff

  datatype Value =
    | Null
    | Boolean(b: bool)
    | Integer(i: int)
    | Floating(f: real)
    | Text(s: string)
    | Attrs(attrs: map<string, Value>)
    | List(items: seq<Value>)

  /** The shapes of types: integers of at most 64 bits by their range, tuples and tuple structs
      alike. */
  datatype Type =
    | BoolType
    | IntType(lo: int, hi: int)
    | FloatType
    | CharType
    | StringType
    | BytesType
    | UnitType
    | OptionType(inner: Type)
    | NewtypeType(inner: Type)
    | SeqType(element: Type)
    | TupleType(elements: seq<Type>)
    | MapType(key: Type, value: Type)
    | StructType(fields: seq<FieldType>)
    | EnumType(variants: seq<VariantType>)

  datatype FieldType = FieldType(name: string, fieldType: Type)

  datatype VariantType = VariantType(name: string, shape: Shape)

  datatype Shape =
    | UnitShape
    | NewtypeShape(inner: Type)
    | TupleShape(elements: seq<Type>)
    | StructShape(fields: seq<FieldType>)

  datatype Rust =
    | Bool(b: bool)
    | Int(n: int)
    | Float(f: real)
    | Char(c: char)
    | Str(s: string)
    | Bytes(bytes: seq<bv8>)
    | Unit
    | Absent
    | Present(inner: Rust)
    | Newtype(inner: Rust)
    | Seq(elements: seq<Rust>)
    | Tuple(elements: seq<Rust>)
    | Map(entries: map<Rust, Rust>)
    | Struct(fields: seq<Field>)
    | Variant(tag: string, content: Content)

  datatype Field = Field(name: string, value: Rust)

  datatype Content =
    | NoContent
    | One(inner: Rust)
    | Many(elements: seq<Rust>)
    | Fields(fields: seq<Field>)

  // -------------------------------------------------------------------------- typing

  /** The shape of the first variant with that name. */
  function Lookup(variants: seq<VariantType>, name: string): (r: Option<Shape>)
    ensures r.None? <==> forall i :: 0 <= i < |variants| ==> variants[i].name != name
    ensures r.Some? ==> exists i :: 0 <= i < |variants| && variants[i] == VariantType(name, r.value)
                                    && forall j :: 0 <= j < i ==> variants[j].name != name
  {
    if variants == [] then None
    else if variants[0].name == name then Some(variants[0].shape)
    else Lookup(variants[1..], name)
  }

  ghost predicate Distinct(fs: seq<Field>) {
    forall i, j :: 0 <= i < j < |fs| ==> fs[i].name != fs[j].name
  }

  ghost predicate HasType(t: Type, v: Rust)
    decreases v
  {
    match v
    case Bool(_) => t.BoolType?
    case Int(n) => t.IntType? && -MAX_I64 - 1 <= t.lo <= n <= t.hi <= MAX_U64
    case Float(_) => t.FloatType?
    case Char(_) => t.CharType?
    case Str(_) => t.StringType?
    case Bytes(_) => t.BytesType?
    case Unit => t.UnitType?
    case Absent => t.OptionType?
    case Present(w) => t.OptionType? && HasType(t.inner, w)
    case Newtype(w) => t.NewtypeType? && HasType(t.inner, w)
    case Seq(vs) => t.SeqType? && forall i :: 0 <= i < |vs| ==> HasType(t.element, vs[i])
    case Tuple(vs) => t.TupleType? && HaveTypes(t.elements, vs)
    case Map(m) => t.MapType? && forall k :: k in m ==> HasType(t.key, k) && HasType(t.value, m[k])
    case Struct(fs) => t.StructType? && HasFields(t.fields, fs)
    case Variant(tag, content) =>
      t.EnumType? && Lookup(t.variants, tag).Some? && HasShape(Lookup(t.variants, tag).value, content)
  }

  ghost predicate HaveTypes(ts: seq<Type>, vs: seq<Rust>)
    decreases vs
  {
    |ts| == |vs| && forall i :: 0 <= i < |vs| ==> HasType(ts[i], vs[i])
  }

  /** Fields have distinct names, listed in the same order. */
  ghost predicate HasFields(ts: seq<FieldType>, fs: seq<Field>)
    decreases fs
  {
    && |ts| == |fs| && Distinct(fs)
    && forall i :: 0 <= i < |fs| ==> ts[i].name == fs[i].name && HasType(ts[i].fieldType, fs[i].value)
  }

  ghost predicate HasShape(shape: Shape, content: Content)
    decreases content
  {
    match content
    case NoContent => shape.UnitShape?
    case One(w) => shape.NewtypeShape? && HasType(shape.inner, w)
    case Many(vs) => shape.TupleShape? && HaveTypes(shape.elements, vs)
    case Fields(fs) => shape.StructShape? && HasFields(shape.fields, fs)
  }

  // -------------------------------------------------------------------- serialisation

  /** The string a key serialises to, if it serialises to a string. */
  function StringForm(k: Rust): Option<string> {
    match k
    case Char(c) => Some([c])
    case Str(s) => Some(s)
    case Present(w) => StringForm(w)
    case Newtype(w) => StringForm(w)
    case Variant(tag, NoContent) => Some(tag)
    case _ => None
  }

  ghost function ToValue(v: Rust): Option<Value> {
    match v
    case Bool(b) => Some(Boolean(b))
    case Int(n) => if n <= MAX_I64 then Some(Integer(n)) else None
    case Float(f) => Some(Floating(f))
    case Char(c) => Some(Text([c]))
    case Str(s) => Some(Text(s))
    case Bytes(_) => None
    case Unit => Some(Null)
    case Absent => Some(Null)
    case Present(w) => ToValue(w)
    case Newtype(w) => ToValue(w)
    case Seq(vs) => ToList(vs)
    case Tuple(vs) => ToList(vs)
    case Map(m) =>
      if forall k :: k in m ==> StringForm(k).Some? && ToValue(m[k]).Some? then
        Some(Attrs(map s | s in set k | k in m :: StringForm(k).value ::
          var k :| k in m && StringForm(k) == Some(s); ToValue(m[k]).value))
      else None
    case Struct(fs) => ToAttrs(fs)
    case Variant(tag, NoContent) => Some(Text(tag))
    case Variant(tag, One(w)) => Tagged(tag, ToValue(w))
    case Variant(tag, Many(vs)) => Tagged(tag, ToList(vs))
    case Variant(tag, Fields(fs)) => Tagged(tag, ToAttrs(fs))
  }

  function Tagged(tag: string, inner: Option<Value>): Option<Value> {
    match inner case None => None case Some(x) => Some(Attrs(map[tag := x]))
  }

  ghost function ToList(vs: seq<Rust>): Option<Value> {
    if forall i :: 0 <= i < |vs| ==> ToValue(vs[i]).Some? then
      Some(List(seq(|vs|, i requires 0 <= i < |vs| => ToValue(vs[i]).value)))
    else None
  }

  /** Attributes collected from a list of entries; a later entry replaces an earlier one. */
  ghost function ToAttrs(fs: seq<Field>): (r: Option<Value>)
    ensures r.Some? ==> r.value.Attrs?
  {
    if fs == [] then Some(Attrs(map[])) else
      var last := fs[|fs| - 1];
      match (ToAttrs(fs[..|fs| - 1]), ToValue(last.value))
      case (Some(Attrs(m)), Some(x)) => Some(Attrs(m[last.name := x]))
      case _ => None
  }

  // ------------------------------------------------------------------ deserialisation

  /** A string, by type. Only unit variants may be given as strings. */
  function FromString(t: Type, s: string): Option<Rust> {
    match t
    case CharType => if |s| == 1 then Some(Char(s[0])) else None
    case StringType => Some(Str(s))
    case OptionType(u) => (match FromString(u, s) case None => None case Some(w) => Some(Present(w)))
    case NewtypeType(u) => (match FromString(u, s) case None => None case Some(w) => Some(Newtype(w)))
    case EnumType(variants) => if Lookup(variants, s) == Some(UnitShape) then Some(Variant(s, NoContent)) else None
    case _ => None
  }

  /** Different strings give different values, so keys never merge. */
  lemma {:induction false} FromStringInjective(t: Type, a: string, b: string)
    requires FromString(t, a).Some? && FromString(t, a) == FromString(t, b)
    ensures a == b
  {
    match t {
      case OptionType(u) => FromStringInjective(u, a, b);
      case NewtypeType(u) => FromStringInjective(u, a, b);
      case CharType => assert a == [a[0]] && b == [b[0]];
      case _ =>
    }
  }

  ghost function FromValue(t: Type, x: Value): Option<Rust>
    decreases x, 2, t
  {
    if x.Text? then FromString(t, x.s) else
      match t
      case BoolType => if x.Boolean? then Some(Bool(x.b)) else None
      case IntType(lo, hi) => if x.Integer? && lo <= x.i <= hi then Some(Int(x.i)) else None
      case FloatType => if x.Floating? then Some(Float(x.f)) else None
      case CharType => None
      case StringType => None
      case BytesType => None
      case UnitType => if x.Null? then Some(Unit) else None
      case OptionType(u) =>
        if x.Null? then Some(Absent) else (match FromValue(u, x) case None => None case Some(w) => Some(Present(w)))
      case NewtypeType(u) => (match FromValue(u, x) case None => None case Some(w) => Some(Newtype(w)))
      case SeqType(u) =>
        if x.List? then (match FromAll(u, x.items) case None => None case Some(vs) => Some(Seq(vs))) else None
      case TupleType(ts) =>
        if x.List? then (match FromTuple(ts, x.items) case None => None case Some(vs) => Some(Tuple(vs))) else None
      case MapType(kt, vt) =>
        if x.Attrs? then (match FromMap(kt, vt, x) case None => None case Some(m) => Some(Map(m))) else None
      case StructType(fs) =>
        if x.Attrs? then (match FromFields(fs, x) case None => None case Some(vs) => Some(Struct(vs))) else None
      case EnumType(variants) => if x.Attrs? then FromEnum(variants, x) else None
  }

  ghost function FromAll(t: Type, xs: seq<Value>): (r: Option<seq<Rust>>)
    decreases xs
  {
    if forall i :: 0 <= i < |xs| ==> FromValue(t, xs[i]).Some? then
      Some(seq(|xs|, i requires 0 <= i < |xs| => FromValue(t, xs[i]).value))
    else None
  }

  /** A tuple takes exactly as many items as it has elements. */
  ghost function FromTuple(ts: seq<Type>, xs: seq<Value>): Option<seq<Rust>>
    decreases xs
  {
    if |ts| == |xs| && forall i :: 0 <= i < |xs| ==> FromValue(ts[i], xs[i]).Some? then
      Some(seq(|xs|, i requires 0 <= i < |xs| => FromValue(ts[i], xs[i]).value))
    else None
  }

  /** The entry gives a key and a value. */
  ghost predicate Readable(kt: Type, vt: Type, x: Value, s: string)
    requires x.Attrs? && s in x.attrs
    decreases x, 0
  {
    FromString(kt, s).Some? && FromValue(vt, x.attrs[s]).Some?
  }

  /** Some string stands for the key. */
  ghost predicate KeyRead(kt: Type, x: Value, k: Rust)
    requires x.Attrs?
  {
    exists s :: s in x.attrs && FromString(kt, s) == Some(k)
  }

  ghost function KeyString(kt: Type, x: Value, k: Rust): (s: string)
    requires x.Attrs? && KeyRead(kt, x, k)
    ensures s in x.attrs && FromString(kt, s) == Some(k)
  {
    var s :| s in x.attrs && FromString(kt, s) == Some(k); s
  }

  ghost function KeysRead(kt: Type, x: Value): (r: set<Rust>)
    requires x.Attrs?
    ensures forall k :: k in r <==> KeyRead(kt, x, k)
  {
    set s | s in x.attrs && FromString(kt, s).Some? :: FromString(kt, s).value
  }

  ghost function FromMap(kt: Type, vt: Type, x: Value): Option<map<Rust, Rust>>
    requires x.Attrs?
    decreases x, 1
  {
    if forall s {:trigger Readable(kt, vt, x, s)} :: s in x.attrs ==> Readable(kt, vt, x, s) then
      Some(map k | k in KeysRead(kt, x) ::
        var s := KeyString(kt, x, k);
        assert Readable(kt, vt, x, s);
        FromValue(vt, x.attrs[s]).value)
    else None
  }

  /** A field that is missing is an error, unless it is optional. */
  ghost function FromField(name: string, t: Type, x: Value): Option<Rust>
    requires x.Attrs?
    decreases x, 0
  {
    if name in x.attrs then FromValue(t, x.attrs[name]) else if t.OptionType? then Some(Absent) else None
  }

  ghost function FromFields(ts: seq<FieldType>, x: Value): Option<seq<Field>>
    requires x.Attrs?
    decreases x, 1
  {
    if forall i :: 0 <= i < |ts| ==> FromField(ts[i].name, ts[i].fieldType, x).Some? then
      Some(seq(|ts|, i requires 0 <= i < |ts| => Field(ts[i].name, FromField(ts[i].name, ts[i].fieldType, x).value)))
    else None
  }

  /** Attributes give a variant with content when there is exactly one of them. */
  ghost function FromEnum(variants: seq<VariantType>, x: Value): Option<Rust>
    requires x.Attrs?
    decreases x, 1
  {
    var m := x.attrs;
    if |m| != 1 then None else
      var tag :| tag in m;
      var shape := Lookup(variants, tag);
      if shape.None? then None else FromShape(tag, shape.value, m[tag])
  }

  ghost function FromShape(tag: string, shape: Shape, x: Value): Option<Rust>
    decreases x, 3
  {
    match shape
    case UnitShape => None
    case NewtypeShape(u) => (match FromValue(u, x) case None => None case Some(w) => Some(Variant(tag, One(w))))
    case TupleShape(ts) =>
      if !x.List? then None
      else (match FromTuple(ts, x.items) case None => None case Some(vs) => Some(Variant(tag, Many(vs))))
    case StructShape(fs) =>
      if !x.Attrs? then None
      else (match FromFields(fs, x) case None => None case Some(vs) => Some(Variant(tag, Fields(vs))))
  }

  // ---------------------------------------------------------- what is accepted, and as what

  /** The Nix value is accepted for the type, and read as `v`. */
  ghost predicate Reads(t: Type, x: Value, v: Rust)
    decreases v, 3
  {
    match v
    case Bool(b) => t.BoolType? && x == Boolean(b)
    case Int(n) => t.IntType? && x == Integer(n) && t.lo <= n <= t.hi
    case Float(f) => t.FloatType? && x == Floating(f)
    case Char(c) => t.CharType? && x == Text([c])
    case Str(s) => t.StringType? && x == Text(s)
    case Bytes(_) => false
    case Unit => t.UnitType? && x == Null
    case Absent => t.OptionType? && x == Null
    case Present(w) => t.OptionType? && x != Null && Reads(t.inner, x, w)
    case Newtype(w) => t.NewtypeType? && Reads(t.inner, x, w)
    case Seq(vs) =>
      && t.SeqType? && x.List? && |x.items| == |vs|
      && forall i :: 0 <= i < |vs| ==> Reads(t.element, x.items[i], vs[i])
    case Tuple(vs) => t.TupleType? && ReadsTuple(t.elements, x, vs)
    case Map(m) => t.MapType? && ReadsMap(t.key, t.value, x, v)
    case Struct(fs) => t.StructType? && ReadsFields(t.fields, x, fs)
    case Variant(_, _) => t.EnumType? && ReadsVariant(t.variants, x, v)
  }

  /** Every entry comes from the attribute with the name of its key, and every attribute gives one. */
  ghost predicate ReadsMap(kt: Type, vt: Type, x: Value, v: Rust)
    requires v.Map?
    decreases v, 1
  {
    && x.Attrs?
    && (forall k {:trigger ReadsEntry(kt, vt, x, v, k)} :: k in v.entries ==> ReadsEntry(kt, vt, x, v, k))
    && (forall s {:trigger Gives(v.entries, s)} :: s in x.attrs ==> Gives(v.entries, s))
  }

  ghost predicate ReadsEntry(kt: Type, vt: Type, x: Value, v: Rust, k: Rust)
    requires v.Map? && x.Attrs? && k in v.entries
    decreases v, 0
  {
    && StringForm(k).Some? && StringForm(k).value in x.attrs
    && Reads(kt, Text(StringForm(k).value), k) && Reads(vt, x.attrs[StringForm(k).value], v.entries[k])
  }

  /** The name is that of a key. */
  ghost predicate Gives(m: map<Rust, Rust>, s: string) {
    exists k :: k in m && StringForm(k) == Some(s)
  }

  /** A string for a unit variant, and else one attribute that names the variant. */
  ghost predicate ReadsVariant(variants: seq<VariantType>, x: Value, v: Rust)
    requires v.Variant?
    decreases v, 0
  {
    var shape := Lookup(variants, v.tag);
    if v.content.NoContent? then x == Text(v.tag) && shape == Some(UnitShape)
    else x.Attrs? && x.attrs.Keys == {v.tag} && shape.Some? && ReadsContent(shape.value, x.attrs[v.tag], v.content)
  }

  /** A list of as many items. */
  ghost predicate ReadsTuple(ts: seq<Type>, x: Value, vs: seq<Rust>)
    decreases vs
  {
    x.List? && |x.items| == |vs| == |ts| && forall i :: 0 <= i < |vs| ==> Reads(ts[i], x.items[i], vs[i])
  }

  /** An attribute for each field; only an optional one may be missing. */
  ghost predicate ReadsFields(ts: seq<FieldType>, x: Value, fs: seq<Field>)
    decreases fs
  {
    && x.Attrs? && |ts| == |fs|
    && forall i :: 0 <= i < |fs| ==>
         && fs[i].name == ts[i].name
         && if ts[i].name in x.attrs then Reads(ts[i].fieldType, x.attrs[ts[i].name], fs[i].value)
            else ts[i].fieldType.OptionType? && fs[i].value == Absent
  }

  ghost predicate ReadsContent(shape: Shape, x: Value, content: Content)
    decreases content
  {
    match content
    case NoContent => false
    case One(w) => shape.NewtypeShape? && Reads(shape.inner, x, w)
    case Many(vs) => shape.TupleShape? && ReadsTuple(shape.elements, x, vs)
    case Fields(fs) => shape.StructShape? && ReadsFields(shape.fields, x, fs)
  }

  lemma StringPlain(t: Type, s: string, v: Rust)
    requires !v.Present? && !v.Newtype?
    ensures FromString(t, s) == Some(v) <==> Reads(t, Text(s), v)
  {
    match t {
      case CharType => if |s| == 1 { assert s == [s[0]]; }
      case OptionType(u) =>
      case NewtypeType(u) =>
      case _ =>
    }
  }

  /** Strings: characters, strings and unit variants, with options and wrappers around them. */
  lemma {:induction false} StringReads(t: Type, s: string, v: Rust)
    ensures FromString(t, s) == Some(v) <==> Reads(t, Text(s), v)
    decreases v
  {
    match v {
      case Present(w) => if t.OptionType? { StringReads(t.inner, s, w); }
      case Newtype(w) => if t.NewtypeType? { StringReads(t.inner, s, w); }
      case _ => StringPlain(t, s, v);
    }
  }

  /** Types without parts. */
  predicate Simple(t: Type) {
    t.BoolType? || t.IntType? || t.FloatType? || t.CharType? || t.StringType? || t.BytesType? || t.UnitType?
  }

  lemma SimpleReads(t: Type, x: Value, v: Rust)
    requires Simple(t) && !x.Text?
    ensures FromValue(t, x) == Some(v) <==> Reads(t, x, v)
  {
  }

  /** The deserialiser gives `v` exactly if the value is accepted for the type and read as `v`. */
  lemma {:induction false} ReadsIff(t: Type, x: Value, v: Rust)
    ensures FromValue(t, x) == Some(v) <==> Reads(t, x, v)
    decreases x, 2, t
  {
    if x.Text? {
      StringReads(t, x.s, v);
    } else if Simple(t) {
      SimpleReads(t, x, v);
    } else {
      match t {
        case OptionType(u) =>
          if v.Present? { ReadsIff(u, x, v.inner); }
          WrapperReads(t, x, v);
        case NewtypeType(u) =>
          if v.Newtype? { ReadsIff(u, x, v.inner); }
          WrapperReads(t, x, v);
        case SeqType(u) =>
          if x.List? && v.Seq? { AllReads(u, x.items, v.elements); }
          ListReads(t, x, v);
        case TupleType(ts) =>
          if x.List? && v.Tuple? { TupleReads(ts, x.items, v.elements); }
          ListReads(t, x, v);
        case MapType(kt, vt) => MapTypeReads(kt, vt, x, v);
        case StructType(fs) => StructReads(fs, x, v);
        case EnumType(variants) =>
          if x.Attrs? { EnumReads(variants, x, v); }
          VariantsRead(variants, x, v);
      }
    }
  }

  lemma WrapperReads(t: Type, x: Value, v: Rust)
    requires (t.OptionType? || t.NewtypeType?) && !x.Text?
    requires (t.OptionType? && v.Present?) || (t.NewtypeType? && v.Newtype?) ==>
               (FromValue(t.inner, x) == Some(v.inner) <==> Reads(t.inner, x, v.inner))
    ensures FromValue(t, x) == Some(v) <==> Reads(t, x, v)
  {
  }

  lemma ListReads(t: Type, x: Value, v: Rust)
    requires (t.SeqType? || t.TupleType?) && !x.Text?
    requires t.SeqType? && x.List? && v.Seq? ==>
               (FromAll(t.element, x.items) == Some(v.elements) <==>
                  |x.items| == |v.elements| &&
                  forall i :: 0 <= i < |v.elements| ==> Reads(t.element, x.items[i], v.elements[i]))
    requires t.TupleType? && x.List? && v.Tuple? ==>
               (FromTuple(t.elements, x.items) == Some(v.elements) <==> ReadsTuple(t.elements, x, v.elements))
    ensures FromValue(t, x) == Some(v) <==> Reads(t, x, v)
  {
  }

  lemma {:induction false} MapTypeReads(kt: Type, vt: Type, x: Value, v: Rust)
    requires !x.Text?
    ensures FromValue(MapType(kt, vt), x) == Some(v) <==> Reads(MapType(kt, vt), x, v)
    decreases x, 1
  {
    if x.Attrs? && v.Map? {
      MapReads(kt, vt, x, v);
    }
  }

  lemma {:induction false} StructReads(fs: seq<FieldType>, x: Value, v: Rust)
    requires !x.Text?
    ensures FromValue(StructType(fs), x) == Some(v) <==> Reads(StructType(fs), x, v)
    decreases x, 1
  {
    if x.Attrs? && v.Struct? {
      FieldsRead(fs, x, v.fields);
    }
  }

  lemma VariantsRead(variants: seq<VariantType>, x: Value, v: Rust)
    requires !x.Text?
    requires x.Attrs? ==> (FromEnum(variants, x) == Some(v) <==> v.Variant? && ReadsVariant(variants, x, v))
    ensures FromValue(EnumType(variants), x) == Some(v) <==> Reads(EnumType(variants), x, v)
  {
  }

  lemma {:induction false} AllReads(t: Type, xs: seq<Value>, vs: seq<Rust>)
    ensures FromAll(t, xs) == Some(vs) <==> |xs| == |vs| && forall i :: 0 <= i < |vs| ==> Reads(t, xs[i], vs[i])
    decreases xs
  {
    if |xs| == |vs| {
      forall i | 0 <= i < |xs| ensures FromValue(t, xs[i]) == Some(vs[i]) <==> Reads(t, xs[i], vs[i]) {
        ReadsIff(t, xs[i], vs[i]);
      }
      if forall i :: 0 <= i < |vs| ==> Reads(t, xs[i], vs[i]) {
        assert FromAll(t, xs).Some? && FromAll(t, xs).value == vs;
      }
    }
  }

  lemma {:induction false} TupleReads(ts: seq<Type>, xs: seq<Value>, vs: seq<Rust>)
    ensures FromTuple(ts, xs) == Some(vs) <==> ReadsTuple(ts, List(xs), vs)
    decreases xs
  {
    if |xs| == |vs| == |ts| {
      forall i | 0 <= i < |xs| ensures FromValue(ts[i], xs[i]) == Some(vs[i]) <==> Reads(ts[i], xs[i], vs[i]) {
        ReadsIff(ts[i], xs[i], vs[i]);
      }
      if forall i :: 0 <= i < |vs| ==> Reads(ts[i], xs[i], vs[i]) {
        assert FromTuple(ts, xs).Some? && FromTuple(ts, xs).value == vs;
      }
    }
  }

  lemma {:induction false} FieldsRead(ts: seq<FieldType>, x: Value, fs: seq<Field>)
    requires x.Attrs?
    ensures FromFields(ts, x) == Some(fs) <==> ReadsFields(ts, x, fs)
    decreases x, 0
  {
    if |ts| == |fs| {
      forall i | 0 <= i < |fs|
        ensures FromField(ts[i].name, ts[i].fieldType, x) == Some(fs[i].value) <==>
                  if ts[i].name in x.attrs then Reads(ts[i].fieldType, x.attrs[ts[i].name], fs[i].value)
                  else ts[i].fieldType.OptionType? && fs[i].value == Absent
      {
        if ts[i].name in x.attrs { ReadsIff(ts[i].fieldType, x.attrs[ts[i].name], fs[i].value); }
      }
      if ReadsFields(ts, x, fs) {
        assert FromFields(ts, x).Some? && FromFields(ts, x).value == fs;
      }
      if FromFields(ts, x) == Some(fs) {
        forall i | 0 <= i < |fs|
          ensures fs[i].name == ts[i].name && FromField(ts[i].name, ts[i].fieldType, x) == Some(fs[i].value)
        {
          assert fs[i] == Field(ts[i].name, FromField(ts[i].name, ts[i].fieldType, x).value);
        }
      }
    }
  }

  lemma {:induction false} ShapeReads(tag: string, shape: Shape, x: Value, v: Rust)
    ensures FromShape(tag, shape, x) == Some(v) <==> v.Variant? && v.tag == tag && ReadsContent(shape, x, v.content)
    decreases x, 3
  {
    if v.Variant? {
      match (shape, v.content) {
        case (NewtypeShape(u), One(w)) => ReadsIff(u, x, w);
        case (TupleShape(ts), Many(vs)) => if x.List? { TupleReads(ts, x.items, vs); }
        case (StructShape(fs), Fields(vs)) => if x.Attrs? { FieldsRead(fs, x, vs); }
        case _ =>
      }
    }
  }

  lemma {:induction false} EnumReads(variants: seq<VariantType>, x: Value, v: Rust)
    requires x.Attrs?
    ensures FromEnum(variants, x) == Some(v) <==> v.Variant? && ReadsVariant(variants, x, v)
    decreases x, 1
  {
    var m := x.attrs;
    if |m| == 1 {
      var tag :| tag in m;
      assert m.Keys == {tag} by { OnlyTag(m, tag); }
      var shape := Lookup(variants, tag);
      if shape.Some? { ShapeReads(tag, shape.value, m[tag], v); }
    } else {
      assert |m.Keys| != 1;
    }
  }

  lemma OnlyTag(m: map<string, Value>, tag: string)
    requires |m| == 1 && tag in m
    ensures m.Keys == {tag}
  {
    assert |m.Keys - {tag}| == 0;
  }

  /** A key is read from the string it is written as. */
  lemma {:induction false} StringFormOf(kt: Type, s: string, k: Rust)
    requires FromString(kt, s) == Some(k)
    ensures StringForm(k) == Some(s)
    decreases k
  {
    match k {
      case Present(w) => StringFormOf(kt.inner, s, w);
      case Newtype(w) => StringFormOf(kt.inner, s, w);
      case Char(c) => assert s == [s[0]];
      case _ =>
    }
  }

  /** The attribute with the name of the key gives the entry of the map. */
  ghost predicate EntryOf(kt: Type, vt: Type, x: Value, m: map<Rust, Rust>, k: Rust)
    requires x.Attrs? && k in m
  {
    && StringForm(k).Some? && StringForm(k).value in x.attrs
    && FromString(kt, StringForm(k).value) == Some(k) && FromValue(vt, x.attrs[StringForm(k).value]) == Some(m[k])
  }

  /** Entries and attributes correspond. */
  ghost predicate Corresponds(kt: Type, vt: Type, x: Value, m: map<Rust, Rust>)
    requires x.Attrs?
  {
    && (forall k {:trigger EntryOf(kt, vt, x, m, k)} :: k in m ==> EntryOf(kt, vt, x, m, k))
    && (forall s {:trigger Gives(m, s)} :: s in x.attrs ==> Gives(m, s))
  }

  lemma MapAccepted(kt: Type, vt: Type, x: Value, m: map<Rust, Rust>)
    requires x.Attrs? && FromMap(kt, vt, x) == Some(m)
    ensures Corresponds(kt, vt, x, m)
  {
    forall k | k in m ensures EntryOf(kt, vt, x, m, k) {
      var s := KeyString(kt, x, k);
      assert Readable(kt, vt, x, s);
      StringFormOf(kt, s, k);
    }
    forall s | s in x.attrs ensures Gives(m, s) {
      assert Readable(kt, vt, x, s);
      var k := FromString(kt, s).value;
      assert KeyRead(kt, x, k) && k in KeysRead(kt, x);
      StringFormOf(kt, s, k);
    }
  }

  lemma GivenName(kt: Type, vt: Type, x: Value, m: map<Rust, Rust>, s: string)
    requires x.Attrs? && Corresponds(kt, vt, x, m) && s in x.attrs
    ensures Readable(kt, vt, x, s) && FromString(kt, s).value in m
  {
    assert Gives(m, s);
    var k :| k in m && StringForm(k) == Some(s);
    assert EntryOf(kt, vt, x, m, k);
  }

  lemma GivenEntry(kt: Type, vt: Type, x: Value, m: map<Rust, Rust>, k: Rust)
    requires x.Attrs? && Corresponds(kt, vt, x, m) && FromMap(kt, vt, x).Some?
    ensures var r := FromMap(kt, vt, x).value; (k in r <==> k in m) && (k in m ==> r[k] == m[k])
  {
    if k in m {
      assert EntryOf(kt, vt, x, m, k);
      var s := StringForm(k).value;
      assert KeyRead(kt, x, k);
      StringFormOf(kt, KeyString(kt, x, k), k);
      assert Readable(kt, vt, x, s);
    }
    if KeyRead(kt, x, k) { GivenName(kt, vt, x, m, KeyString(kt, x, k)); }
  }

  lemma MapGiven(kt: Type, vt: Type, x: Value, m: map<Rust, Rust>)
    requires x.Attrs? && Corresponds(kt, vt, x, m)
    ensures FromMap(kt, vt, x) == Some(m)
  {
    forall s | s in x.attrs ensures Readable(kt, vt, x, s) { GivenName(kt, vt, x, m, s); }
    var r := FromMap(kt, vt, x).value;
    forall k ensures (k in r <==> k in m) && (k in m ==> r[k] == m[k]) { GivenEntry(kt, vt, x, m, k); }
    EqualMaps(r, m);
  }

  lemma EqualMaps<K, V>(a: map<K, V>, b: map<K, V>)
    requires forall k :: (k in a <==> k in b) && (k in b ==> a[k] == b[k])
    ensures a == b
  {
  }

  lemma {:induction false} MapReads(kt: Type, vt: Type, x: Value, v: Rust)
    requires x.Attrs? && v.Map?
    ensures FromMap(kt, vt, x) == Some(v.entries) <==> ReadsMap(kt, vt, x, v)
    decreases x, 0, 2
  {
    var m := v.entries;
    forall k | k in m ensures EntryOf(kt, vt, x, m, k) <==> ReadsEntry(kt, vt, x, v, k) {
      EntryReads(kt, vt, x, v, k);
    }
    if FromMap(kt, vt, x) == Some(m) { MapAccepted(kt, vt, x, m); }
    if Corresponds(kt, vt, x, m) { MapGiven(kt, vt, x, m); }
  }

  lemma {:induction false} EntryReads(kt: Type, vt: Type, x: Value, v: Rust, k: Rust)
    requires x.Attrs? && v.Map? && k in v.entries
    ensures EntryOf(kt, vt, x, v.entries, k) <==> ReadsEntry(kt, vt, x, v, k)
    decreases x, 0, 1
  {
    if StringForm(k).Some? && StringForm(k).value in x.attrs {
      AttrReads(vt, x, StringForm(k).value, v.entries[k]);
      EntryJoins(kt, vt, x, v, k);
    }
  }

  lemma {:induction false} AttrReads(t: Type, x: Value, s: string, w: Rust)
    requires x.Attrs? && s in x.attrs
    ensures FromValue(t, x.attrs[s]) == Some(w) <==> Reads(t, x.attrs[s], w)
    decreases x, 0, 0
  {
    ReadsIff(t, x.attrs[s], w);
  }

  lemma EntryJoins(kt: Type, vt: Type, x: Value, v: Rust, k: Rust)
    requires x.Attrs? && v.Map? && k in v.entries && StringForm(k).Some? && StringForm(k).value in x.attrs
    requires var y, w := x.attrs[StringForm(k).value], v.entries[k]; FromValue(vt, y) == Some(w) <==> Reads(vt, y, w)
    ensures EntryOf(kt, vt, x, v.entries, k) <==> ReadsEntry(kt, vt, x, v, k)
  {
    StringReads(kt, StringForm(k).value, k);
  }

  // ----------------------------------------------------------------- accepted means typed

  /** Integer ranges are within 64 bits, and fields have distinct names, in the type and in
      everything in it. */
  ghost predicate Proper(t: Type) {
    match t
    case IntType(lo, hi) => -MAX_I64 - 1 <= lo && hi <= MAX_U64
    case OptionType(u) => Proper(u)
    case NewtypeType(u) => Proper(u)
    case SeqType(u) => Proper(u)
    case TupleType(ts) => forall i :: 0 <= i < |ts| ==> Proper(ts[i])
    case MapType(k, u) => Proper(k) && Proper(u)
    case StructType(fs) => FieldsProper(fs)
    case EnumType(variants) => forall i :: 0 <= i < |variants| ==> ShapeProper(variants[i].shape)
    case _ => true
  }

  ghost predicate FieldsProper(fs: seq<FieldType>) {
    && (forall i, j :: 0 <= i < j < |fs| ==> fs[i].name != fs[j].name)
    && forall i :: 0 <= i < |fs| ==> Proper(fs[i].fieldType)
  }

  ghost predicate ShapeProper(shape: Shape) {
    match shape
    case UnitShape => true
    case NewtypeShape(u) => Proper(u)
    case TupleShape(ts) => forall i :: 0 <= i < |ts| ==> Proper(ts[i])
    case StructShape(fs) => FieldsProper(fs)
  }

  /** Whatever is accepted for a type is read as a value of that type. */
  lemma {:induction false} ReadsTyped(t: Type, x: Value, v: Rust)
    requires Proper(t) && Reads(t, x, v)
    ensures HasType(t, v)
    decreases v, 1
  {
    match v {
      case Present(w) => ReadsTyped(t.inner, x, w);
      case Newtype(w) => ReadsTyped(t.inner, x, w);
      case Seq(vs) => SeqTyped(t.element, x, vs);
      case Tuple(vs) => TupleTyped(t.elements, x, vs);
      case Map(m) => MapTyped(t.key, t.value, x, v);
      case Struct(fs) => FieldsTyped(t.fields, x, fs);
      case Variant(tag, content) =>
        if !content.NoContent? { ContentTyped(Lookup(t.variants, tag).value, x.attrs[tag], content); }
      case _ =>
    }
  }

  lemma {:induction false} SeqTyped(t: Type, x: Value, vs: seq<Rust>)
    requires Proper(t) && x.List? && |x.items| == |vs| && forall i :: 0 <= i < |vs| ==> Reads(t, x.items[i], vs[i])
    ensures forall i :: 0 <= i < |vs| ==> HasType(t, vs[i])
    decreases vs
  {
    forall i | 0 <= i < |vs| ensures HasType(t, vs[i]) { ReadsTyped(t, x.items[i], vs[i]); }
  }

  lemma {:induction false} MapTyped(kt: Type, vt: Type, x: Value, v: Rust)
    requires Proper(kt) && Proper(vt) && v.Map? && ReadsMap(kt, vt, x, v)
    ensures HasType(MapType(kt, vt), v)
    decreases v, 0
  {
    forall k | k in v.entries ensures HasType(kt, k) && HasType(vt, v.entries[k]) {
      assert ReadsEntry(kt, vt, x, v, k);
      var s := StringForm(k).value;
      ReadsTyped(kt, Text(s), k);
      ReadsTyped(vt, x.attrs[s], v.entries[k]);
    }
  }

  lemma {:induction false} TupleTyped(ts: seq<Type>, x: Value, vs: seq<Rust>)
    requires (forall i :: 0 <= i < |ts| ==> Proper(ts[i])) && ReadsTuple(ts, x, vs)
    ensures HaveTypes(ts, vs)
    decreases vs
  {
    forall i | 0 <= i < |vs| ensures HasType(ts[i], vs[i]) { ReadsTyped(ts[i], x.items[i], vs[i]); }
  }

  lemma {:induction false} FieldsTyped(ts: seq<FieldType>, x: Value, fs: seq<Field>)
    requires FieldsProper(ts) && ReadsFields(ts, x, fs)
    ensures HasFields(ts, fs)
    decreases fs
  {
    forall i | 0 <= i < |fs| ensures HasType(ts[i].fieldType, fs[i].value) {
      if ts[i].name in x.attrs { ReadsTyped(ts[i].fieldType, x.attrs[ts[i].name], fs[i].value); }
    }
  }

  lemma {:induction false} ContentTyped(shape: Shape, x: Value, content: Content)
    requires ShapeProper(shape) && ReadsContent(shape, x, content)
    ensures HasShape(shape, content)
    decreases content
  {
    match content {
      case One(w) => ReadsTyped(shape.inner, x, w);
      case Many(vs) => TupleTyped(shape.elements, x, vs);
      case Fields(fs) => FieldsTyped(shape.fields, x, fs);
    }
  }

  // ------------------------------------------------------------------- parts of values

  /** `p` holds of the value and of everything in it, map keys excepted. */
  ghost predicate Everywhere(p: Rust -> bool, v: Rust)
    decreases v
  {
    p(v) &&
    match v
    case Present(w) => Everywhere(p, w)
    case Newtype(w) => Everywhere(p, w)
    case Seq(vs) => forall i :: 0 <= i < |vs| ==> Everywhere(p, vs[i])
    case Tuple(vs) => forall i :: 0 <= i < |vs| ==> Everywhere(p, vs[i])
    case Map(m) => forall k :: k in m ==> Everywhere(p, m[k])
    case Struct(fs) => forall i :: 0 <= i < |fs| ==> Everywhere(p, fs[i].value)
    case Variant(_, One(w)) => Everywhere(p, w)
    case Variant(_, Many(vs)) => forall i :: 0 <= i < |vs| ==> Everywhere(p, vs[i])
    case Variant(_, Fields(fs)) => forall i :: 0 <= i < |fs| ==> Everywhere(p, fs[i].value)
    case _ => true
  }

  /** No bytes, no integer above the signed 64-bit range, only keys that are strings. */
  ghost predicate Serialisable(v: Rust) {
    && !v.Bytes?
    && (v.Int? ==> v.n <= MAX_I64)
    && (v.Map? ==> forall k :: k in v.entries ==> StringForm(k).Some?)
  }

  /** The value is written as null. */
  ghost predicate NullForm(v: Rust) {
    match v
    case Unit => true
    case Absent => true
    case Present(w) => NullForm(w)
    case Newtype(w) => NullForm(w)
    case _ => false
  }

  /** An option that is present does not hold a null. */
  ghost predicate Faithful(v: Rust) {
    v.Present? ==> !NullForm(v.inner)
  }

  // ------------------------------------------------------------- when writing succeeds

  lemma {:induction false} AttrsSucceed(fs: seq<Field>)
    ensures ToAttrs(fs).Some? <==> forall i :: 0 <= i < |fs| ==> ToValue(fs[i].value).Some?
  {
    if fs != [] {
      var init := fs[..|fs| - 1];
      AttrsSucceed(init);
      assert forall i :: 0 <= i < |init| ==> init[i] == fs[i];
    }
  }

  /** The attributes of fields with distinct names. */
  lemma {:induction false} AttrsOf(fs: seq<Field>)
    requires Distinct(fs) && ToAttrs(fs).Some?
    ensures forall i :: 0 <= i < |fs| ==>
              && fs[i].name in ToAttrs(fs).value.attrs
              && ToValue(fs[i].value) == Some(ToAttrs(fs).value.attrs[fs[i].name])
  {
    if fs != [] {
      var init := fs[..|fs| - 1];
      AttrsOf(init);
      assert forall i :: 0 <= i < |init| ==> init[i] == fs[i];
    }
  }

  /** Serialising fails exactly on bytes, on integers above the signed 64-bit range and on
      map keys that are not strings, wherever they occur. */
  lemma {:induction false} SucceedsIff(v: Rust)
    ensures ToValue(v).Some? <==> Everywhere(Serialisable, v)
    decreases v
  {
    match v {
      case Present(w) => SucceedsIff(w);
      case Newtype(w) => SucceedsIff(w);
      case Seq(vs) =>
        forall i | 0 <= i < |vs| ensures ToValue(vs[i]).Some? <==> Everywhere(Serialisable, vs[i]) {
          SucceedsIff(vs[i]);
        }
      case Tuple(vs) =>
        forall i | 0 <= i < |vs| ensures ToValue(vs[i]).Some? <==> Everywhere(Serialisable, vs[i]) {
          SucceedsIff(vs[i]);
        }
      case Map(m) =>
        forall k | k in m ensures ToValue(m[k]).Some? <==> Everywhere(Serialisable, m[k]) {
          SucceedsIff(m[k]);
        }
      case Struct(fs) =>
        AttrsSucceed(fs);
        forall i | 0 <= i < |fs| ensures ToValue(fs[i].value).Some? <==> Everywhere(Serialisable, fs[i].value) {
          SucceedsIff(fs[i].value);
        }
      case Variant(_, One(w)) => SucceedsIff(w);
      case Variant(_, Many(vs)) =>
        forall i | 0 <= i < |vs| ensures ToValue(vs[i]).Some? <==> Everywhere(Serialisable, vs[i]) {
          SucceedsIff(vs[i]);
        }
      case Variant(_, Fields(fs)) =>
        AttrsSucceed(fs);
        forall i | 0 <= i < |fs| ensures ToValue(fs[i].value).Some? <==> Everywhere(Serialisable, fs[i].value) {
          SucceedsIff(fs[i].value);
        }
      case _ =>
    }
  }

  lemma {:induction false} NullIff(v: Rust)
    ensures ToValue(v) == Some(Null) <==> NullForm(v)
  {
    match v {
      case Present(w) => NullIff(w);
      case Newtype(w) => NullIff(w);
      case _ =>
    }
  }

  /** The string form of a key is what it serialises to. */
  lemma {:induction false} TextIff(v: Rust, s: string)
    ensures ToValue(v) == Some(Text(s)) <==> StringForm(v) == Some(s)
  {
    match v {
      case Present(w) => TextIff(w, s);
      case Newtype(w) => TextIff(w, s);
      case _ =>
    }
  }

  // ----------------------------------------------------------------------- round trips

  lemma {:induction false} KeyRoundTrip(t: Type, k: Rust, s: string)
    requires HasType(t, k) && StringForm(k) == Some(s)
    ensures FromString(t, s) == Some(k)
  {
    match k {
      case Present(w) => KeyRoundTrip(t.inner, w, s);
      case Newtype(w) => KeyRoundTrip(t.inner, w, s);
      case _ =>
    }
  }

  /** The value can be written, and comes back as it was iff it is faithful throughout. */
  ghost predicate Settled(t: Type, v: Rust) {
    ToValue(v).Some? && (FromValue(t, ToValue(v).value) == Some(v) <==> Everywhere(Faithful, v))
  }

  lemma FromAllIff(t: Type, xs: seq<Value>, vs: seq<Rust>)
    requires |xs| == |vs|
    ensures FromAll(t, xs) == Some(vs) <==> forall i :: 0 <= i < |vs| ==> FromValue(t, xs[i]) == Some(vs[i])
  {
    if FromAll(t, xs).Some? {
      var r := FromAll(t, xs).value;
      forall i | 0 <= i < |vs| ensures FromValue(t, xs[i]) == Some(r[i]) {
      }
      assert r == vs <==> forall i :: 0 <= i < |vs| ==> r[i] == vs[i];
    }
  }

  lemma FromTupleIff(ts: seq<Type>, xs: seq<Value>, vs: seq<Rust>)
    requires |ts| == |xs| == |vs|
    ensures FromTuple(ts, xs) == Some(vs) <==> forall i :: 0 <= i < |vs| ==> FromValue(ts[i], xs[i]) == Some(vs[i])
  {
    if FromTuple(ts, xs).Some? {
      var r := FromTuple(ts, xs).value;
      forall i | 0 <= i < |vs| ensures FromValue(ts[i], xs[i]) == Some(r[i]) {
      }
      assert r == vs <==> forall i :: 0 <= i < |vs| ==> r[i] == vs[i];
    }
  }

  lemma FromFieldsIff(ts: seq<FieldType>, x: Value, fs: seq<Field>)
    requires x.Attrs? && |ts| == |fs| && forall i :: 0 <= i < |fs| ==> ts[i].name == fs[i].name
    ensures FromFields(ts, x) == Some(fs) <==>
              forall i :: 0 <= i < |fs| ==> FromField(ts[i].name, ts[i].fieldType, x) == Some(fs[i].value)
  {
    if FromFields(ts, x).Some? {
      var r := FromFields(ts, x).value;
      forall i | 0 <= i < |fs| ensures r[i] == Field(ts[i].name, FromField(ts[i].name, ts[i].fieldType, x).value) {
      }
      assert r == fs <==> forall i :: 0 <= i < |fs| ==> r[i] == fs[i];
    }
  }

  /** The items of a list, element by element. */
  lemma ListItems(vs: seq<Rust>) returns (xs: seq<Value>)
    requires forall i :: 0 <= i < |vs| ==> ToValue(vs[i]).Some?
    ensures ToList(vs) == Some(List(xs)) && |xs| == |vs|
    ensures forall i :: 0 <= i < |vs| ==> ToValue(vs[i]) == Some(xs[i])
  {
    xs := ToList(vs).value.items;
  }

  lemma TupleRoundTrip(ts: seq<Type>, vs: seq<Rust>)
    requires |ts| == |vs| && forall i :: 0 <= i < |vs| ==> Settled(ts[i], vs[i])
    ensures ToList(vs).Some? && ToList(vs).value.List?
    ensures FromTuple(ts, ToList(vs).value.items) == Some(vs) <==>
              forall i :: 0 <= i < |vs| ==> Everywhere(Faithful, vs[i])
  {
    var xs := ListItems(vs);
    FromTupleIff(ts, xs, vs);
    forall i | 0 <= i < |vs| ensures FromValue(ts[i], xs[i]) == Some(vs[i]) <==> Everywhere(Faithful, vs[i]) {
      assert Settled(ts[i], vs[i]);
    }
  }

  lemma SeqRoundTrip(t: Type, vs: seq<Rust>)
    requires forall i :: 0 <= i < |vs| ==> Settled(t, vs[i])
    ensures ToList(vs).Some? && ToList(vs).value.List?
    ensures FromAll(t, ToList(vs).value.items) == Some(vs) <==>
              forall i :: 0 <= i < |vs| ==> Everywhere(Faithful, vs[i])
  {
    var xs := ListItems(vs);
    FromAllIff(t, xs, vs);
    forall i | 0 <= i < |vs| ensures FromValue(t, xs[i]) == Some(vs[i]) <==> Everywhere(Faithful, vs[i]) {
      assert Settled(t, vs[i]);
    }
  }

  lemma StructRoundTrip(ts: seq<FieldType>, fs: seq<Field>)
    requires HasFields(ts, fs) && ToAttrs(fs).Some?
    requires forall i :: 0 <= i < |fs| ==> Settled(ts[i].fieldType, fs[i].value)
    ensures FromFields(ts, ToAttrs(fs).value) == Some(fs) <==>
              forall i :: 0 <= i < |fs| ==> Everywhere(Faithful, fs[i].value)
  {
    AttrsOf(fs);
    var x := ToAttrs(fs).value;
    FromFieldsIff(ts, x, fs);
    forall i | 0 <= i < |fs|
      ensures FromField(ts[i].name, ts[i].fieldType, x) == Some(fs[i].value) <==> Everywhere(Faithful, fs[i].value)
    {
      assert Settled(ts[i].fieldType, fs[i].value);
    }
  }

  /** `x` holds, under the string form of the key, what its value serialises to. */
  ghost predicate HeldAt(x: Value, kt: Type, m: map<Rust, Rust>, k: Rust)
    requires x.Attrs? && k in m
  {
    && StringForm(k).Some? && StringForm(k).value in x.attrs
    && FromString(kt, StringForm(k).value) == Some(k)
    && ToValue(m[k]) == Some(x.attrs[StringForm(k).value])
  }

  ghost predicate Named(m: map<Rust, Rust>, s: string) {
    exists k :: k in m && StringForm(k) == Some(s)
  }

  ghost predicate Holds(x: Value, kt: Type, m: map<Rust, Rust>) {
    && x.Attrs?
    && (forall k {:trigger HeldAt(x, kt, m, k)} :: k in m ==> HeldAt(x, kt, m, k))
    && (forall s {:trigger Named(m, s)} :: s in x.attrs ==> Named(m, s))
  }

  lemma MapKeys(t: Type, m: map<Rust, Rust>)
    requires HasType(t, Map(m)) && ToValue(Map(m)).Some?
    ensures Holds(ToValue(Map(m)).value, t.key, m)
  {
    forall k | k in m ensures FromString(t.key, StringForm(k).value) == Some(k) {
      KeyRoundTrip(t.key, k, StringForm(k).value);
    }
  }

  /** The entry `s` was read into `r`. */
  ghost predicate ReadAt(kt: Type, vt: Type, x: Value, r: map<Rust, Rust>, s: string)
    requires x.Attrs? && s in x.attrs
  {
    && FromString(kt, s).Some? && FromString(kt, s).value in r
    && FromValue(vt, x.attrs[s]) == Some(r[FromString(kt, s).value])
  }

  ghost predicate AllRead(kt: Type, vt: Type, x: Value, r: map<Rust, Rust>)
    requires x.Attrs?
  {
    && (forall s {:trigger ReadAt(kt, vt, x, r, s)} :: s in x.attrs ==> ReadAt(kt, vt, x, r, s))
    && (forall k {:trigger KeyRead(kt, x, k)} :: k in r ==> KeyRead(kt, x, k))
  }

  lemma FromMapReads(kt: Type, vt: Type, x: Value)
    requires x.Attrs? && FromMap(kt, vt, x).Some?
    ensures AllRead(kt, vt, x, FromMap(kt, vt, x).value)
  {
    var r := FromMap(kt, vt, x).value;
    forall s | s in x.attrs ensures ReadAt(kt, vt, x, r, s) {
      assert Readable(kt, vt, x, s);
      var k := FromString(kt, s).value;
      assert KeyRead(kt, x, k);
      FromStringInjective(kt, KeyString(kt, x, k), s);
    }
  }

  /** Reading what was held gives back the keys, each with what its value is read as. */
  lemma ReadHeld(kt: Type, vt: Type, m: map<Rust, Rust>, x: Value, r: map<Rust, Rust>)
    requires Holds(x, kt, m) && AllRead(kt, vt, x, r)
    ensures r.Keys == m.Keys
    ensures forall k :: k in m ==> ToValue(m[k]).Some? && FromValue(vt, ToValue(m[k]).value) == Some(r[k])
  {
    forall k | k in m ensures k in r && ToValue(m[k]).Some? && FromValue(vt, ToValue(m[k]).value) == Some(r[k]) {
      assert HeldAt(x, kt, m, k);
      assert ReadAt(kt, vt, x, r, StringForm(k).value);
    }
    forall k | k in r ensures k in m {
      assert KeyRead(kt, x, k);
      var s :| s in x.attrs && FromString(kt, s) == Some(k);
      assert Named(m, s);
      var k' :| k' in m && StringForm(k') == Some(s);
      assert HeldAt(x, kt, m, k');
    }
  }

  lemma FaithfulReads(kt: Type, vt: Type, m: map<Rust, Rust>, x: Value)
    requires Holds(x, kt, m) && forall k :: k in m ==> Settled(vt, m[k]) && Everywhere(Faithful, m[k])
    ensures FromMap(kt, vt, x).Some?
  {
    forall s | s in x.attrs ensures Readable(kt, vt, x, s) {
      assert Named(m, s);
      var k :| k in m && StringForm(k) == Some(s);
      assert HeldAt(x, kt, m, k);
      assert Settled(vt, m[k]);
    }
  }

  lemma MapRoundTrip(kt: Type, vt: Type, m: map<Rust, Rust>, x: Value)
    requires Holds(x, kt, m) && forall k :: k in m ==> Settled(vt, m[k])
    ensures FromMap(kt, vt, x) == Some(m) <==> forall k :: k in m ==> Everywhere(Faithful, m[k])
  {
    if forall k :: k in m ==> Everywhere(Faithful, m[k]) {
      FaithfulReads(kt, vt, m, x);
    }
    if FromMap(kt, vt, x).Some? {
      FromMapReads(kt, vt, x);
      SameMap(kt, vt, m, x, FromMap(kt, vt, x).value);
    }
  }

  lemma SameMap(kt: Type, vt: Type, m: map<Rust, Rust>, x: Value, r: map<Rust, Rust>)
    requires Holds(x, kt, m) && AllRead(kt, vt, x, r) && forall k :: k in m ==> Settled(vt, m[k])
    ensures r == m <==> forall k :: k in m ==> Everywhere(Faithful, m[k])
  {
    ReadHeld(kt, vt, m, x, r);
    forall k | k in m ensures r[k] == m[k] <==> Everywhere(Faithful, m[k]) {
      assert Settled(vt, m[k]);
    }
    assert r == m <==> forall k :: k in m ==> r[k] == m[k];
  }

  lemma EnumRoundTrip(variants: seq<VariantType>, tag: string, y: Value)
    requires Lookup(variants, tag).Some?
    ensures FromEnum(variants, Attrs(map[tag := y])) == FromShape(tag, Lookup(variants, tag).value, y)
  {
    var m := map[tag := y];
    assert m.Keys == {tag} && |m| == |m.Keys| == 1;
  }

  lemma ElementsSettled(ts: seq<Type>, vs: seq<Rust>, v: Rust)
    requires HaveTypes(ts, vs) && ToList(vs).Some?
    requires v == Seq(vs) || v == Tuple(vs) || (v.Variant? && v.content == Many(vs))
    ensures forall i :: 0 <= i < |vs| ==> Settled(ts[i], vs[i])
    decreases v, 0
  {
    forall i | 0 <= i < |vs| ensures Settled(ts[i], vs[i]) {
      RoundTrip(ts[i], vs[i]);
    }
  }

  lemma FieldsSettled(ts: seq<FieldType>, fs: seq<Field>, v: Rust)
    requires HasFields(ts, fs) && ToAttrs(fs).Some?
    requires v == Struct(fs) || (v.Variant? && v.content == Fields(fs))
    ensures forall i :: 0 <= i < |fs| ==> Settled(ts[i].fieldType, fs[i].value)
    decreases v, 0
  {
    AttrsSucceed(fs);
    forall i | 0 <= i < |fs| ensures Settled(ts[i].fieldType, fs[i].value) {
      RoundTrip(ts[i].fieldType, fs[i].value);
    }
  }

  lemma ValuesSettled(vt: Type, m: map<Rust, Rust>)
    requires forall k :: k in m ==> HasType(vt, m[k]) && ToValue(m[k]).Some?
    ensures forall k :: k in m ==> Settled(vt, m[k])
    decreases Map(m), 0
  {
    forall k | k in m ensures Settled(vt, m[k]) {
      RoundTrip(vt, m[k]);
    }
  }

  lemma MapSettled(t: Type, m: map<Rust, Rust>)
    requires HasType(t, Map(m)) && ToValue(Map(m)).Some?
    ensures Settled(t, Map(m))
    decreases Map(m), 1
  {
    ValuesSettled(t.value, m);
    MapKeys(t, m);
    var x := ToValue(Map(m)).value;
    MapRoundTrip(t.key, t.value, m, x);
    MapValue(t, x, m);
    MapFaithful(m);
  }

  lemma MapValue(t: Type, x: Value, m: map<Rust, Rust>)
    requires t.MapType? && x.Attrs?
    ensures FromValue(t, x) == Some(Map(m)) <==> FromMap(t.key, t.value, x) == Some(m)
  {
  }

  lemma MapFaithful(m: map<Rust, Rust>)
    ensures Everywhere(Faithful, Map(m)) <==> forall k :: k in m ==> Everywhere(Faithful, m[k])
  {
  }

  lemma VariantSettled(t: Type, v: Rust)
    requires v.Variant? && HasType(t, v) && ToValue(v).Some?
    ensures Settled(t, v)
    decreases v, 1
  {
    var tag, shape := v.tag, Lookup(t.variants, v.tag).value;
    match v.content {
      case NoContent =>
      case One(w) =>
        RoundTrip(shape.inner, w);
        EnumRoundTrip(t.variants, tag, ToValue(w).value);
      case Many(vs) =>
        ElementsSettled(shape.elements, vs, v);
        TupleRoundTrip(shape.elements, vs);
        EnumRoundTrip(t.variants, tag, ToList(vs).value);
      case Fields(fs) =>
        FieldsSettled(shape.fields, fs, v);
        StructRoundTrip(shape.fields, fs);
        EnumRoundTrip(t.variants, tag, ToAttrs(fs).value);
    }
  }

  lemma SeqSettled(t: Type, vs: seq<Rust>)
    requires HasType(t, Seq(vs)) && ToList(vs).Some?
    ensures Settled(t, Seq(vs))
    decreases Seq(vs), 1
  {
    var ts := seq(|vs|, i => t.element);
    ElementsSettled(ts, vs, Seq(vs));
    forall i | 0 <= i < |vs| ensures Settled(t.element, vs[i]) {
      assert ts[i] == t.element;
    }
    SeqRoundTrip(t.element, vs);
  }

  lemma PresentSettled(t: Type, w: Rust)
    requires t.OptionType? && Settled(t.inner, w)
    ensures Settled(t, Present(w))
  {
    NullIff(w);
  }

  lemma TupleSettled(t: Type, vs: seq<Rust>)
    requires HasType(t, Tuple(vs)) && ToList(vs).Some?
    ensures Settled(t, Tuple(vs))
    decreases Tuple(vs), 1
  {
    ElementsSettled(t.elements, vs, Tuple(vs));
    TupleRoundTrip(t.elements, vs);
  }

  lemma StructSettled(t: Type, fs: seq<Field>)
    requires HasType(t, Struct(fs)) && ToAttrs(fs).Some?
    ensures Settled(t, Struct(fs))
    decreases Struct(fs), 1
  {
    FieldsSettled(t.fields, fs, Struct(fs));
    StructRoundTrip(t.fields, fs);
  }

  lemma NewtypeSettled(t: Type, w: Rust)
    requires t.NewtypeType? && Settled(t.inner, w)
    ensures Settled(t, Newtype(w))
  {
  }

  predicate Atomic(v: Rust) {
    v.Bool? || v.Int? || v.Float? || v.Char? || v.Str? || v.Bytes? || v.Unit? || v.Absent?
  }

  lemma AtomSettled(t: Type, v: Rust)
    requires Atomic(v) && HasType(t, v) && ToValue(v).Some?
    ensures Settled(t, v)
  {
  }

  /** A value that can be written comes back as it was iff no option in it is present
      around a null. */
  lemma {:induction false} RoundTrip(t: Type, v: Rust)
    requires HasType(t, v) && ToValue(v).Some?
    ensures FromValue(t, ToValue(v).value) == Some(v) <==> Everywhere(Faithful, v)
    decreases v, 2
  {
    match v {
      case Present(w) => RoundTrip(t.inner, w); PresentSettled(t, w);
      case Newtype(w) => RoundTrip(t.inner, w); NewtypeSettled(t, w);
      case Seq(vs) => SeqSettled(t, vs);
      case Tuple(vs) => TupleSettled(t, vs);
      case Map(m) => MapSettled(t, m);
      case Struct(fs) => StructSettled(t, fs);
      case Variant(_, _) => VariantSettled(t, v);
      case _ => AtomSettled(t, v);
    }
  }

  /** The smallest loss: a present unit comes back as absent. */
  lemma PresentUnitLost()
    ensures HasType(OptionType(UnitType), Present(Unit)) && ToValue(Present(Unit)) == Some(Null)
    ensures FromValue(OptionType(UnitType), Null) == Some(Absent)
  {
  }

  // ---------------------------------------------------------------- types that are safe

  /** Some values of the type are written as null. */
  predicate Nullable(t: Type) {
    match t
    case UnitType => true
    case OptionType(_) => true
    case NewtypeType(u) => Nullable(u)
    case _ => false
  }

  /** No option wraps a nullable type. */
  ghost predicate NullSafe(t: Type) {
    match t
    case OptionType(u) => !Nullable(u) && NullSafe(u)
    case NewtypeType(u) => NullSafe(u)
    case SeqType(u) => NullSafe(u)
    case TupleType(ts) => forall i :: 0 <= i < |ts| ==> NullSafe(ts[i])
    case MapType(_, u) => NullSafe(u)
    case StructType(fs) => forall i :: 0 <= i < |fs| ==> NullSafe(fs[i].fieldType)
    case EnumType(variants) => forall i :: 0 <= i < |variants| ==> ShapeSafe(variants[i].shape)
    case _ => true
  }

  ghost predicate ShapeSafe(shape: Shape) {
    match shape
    case UnitShape => true
    case NewtypeShape(u) => NullSafe(u)
    case TupleShape(ts) => forall i :: 0 <= i < |ts| ==> NullSafe(ts[i])
    case StructShape(fs) => forall i :: 0 <= i < |fs| ==> NullSafe(fs[i].fieldType)
  }

  lemma {:induction false} NullFormNullable(t: Type, v: Rust)
    requires HasType(t, v) && NullForm(v)
    ensures Nullable(t)
  {
    match v {
      case Newtype(w) => NullFormNullable(t.inner, w);
      case _ =>
    }
  }

  lemma {:induction false} LookupSafe(variants: seq<VariantType>, tag: string)
    requires (forall i :: 0 <= i < |variants| ==> ShapeSafe(variants[i].shape)) && Lookup(variants, tag).Some?
    ensures ShapeSafe(Lookup(variants, tag).value)
  {
    if variants[0].name != tag { LookupSafe(variants[1..], tag); }
  }

  lemma ContentFaithful(shape: Shape, tag: string, content: Content)
    requires HasShape(shape, content) && ShapeSafe(shape)
    ensures Everywhere(Faithful, Variant(tag, content))
    decreases content
  {
    match content {
      case NoContent =>
      case One(w) => SafeFaithful(shape.inner, w);
      case Many(vs) =>
        forall i | 0 <= i < |vs| ensures Everywhere(Faithful, vs[i]) {
          SafeFaithful(shape.elements[i], vs[i]);
        }
      case Fields(fs) =>
        forall i | 0 <= i < |fs| ensures Everywhere(Faithful, fs[i].value) {
          SafeFaithful(shape.fields[i].fieldType, fs[i].value);
        }
    }
  }

  /** Values of such types lose nothing. */
  lemma {:induction false} SafeFaithful(t: Type, v: Rust)
    requires HasType(t, v) && NullSafe(t)
    ensures Everywhere(Faithful, v)
    decreases v
  {
    match v {
      case Present(w) =>
        if NullForm(w) { NullFormNullable(t.inner, w); }
        SafeFaithful(t.inner, w);
      case Newtype(w) => SafeFaithful(t.inner, w);
      case Seq(vs) => forall i | 0 <= i < |vs| ensures Everywhere(Faithful, vs[i]) { SafeFaithful(t.element, vs[i]); }
      case Tuple(vs) =>
        forall i | 0 <= i < |vs| ensures Everywhere(Faithful, vs[i]) {
          SafeFaithful(t.elements[i], vs[i]);
        }
      case Map(m) => forall k | k in m ensures Everywhere(Faithful, m[k]) { SafeFaithful(t.value, m[k]); }
      case Struct(fs) =>
        forall i | 0 <= i < |fs| ensures Everywhere(Faithful, fs[i].value) {
          SafeFaithful(t.fields[i].fieldType, fs[i].value);
        }
      case Variant(tag, content) =>
        LookupSafe(t.variants, tag);
        ContentFaithful(Lookup(t.variants, tag).value, tag, content);
      case _ =>
    }
  }

  /** Values of types without options around nullable types always come back. */
  lemma SafeRoundTrip(t: Type, v: Rust)
    requires HasType(t, v) && NullSafe(t) && Everywhere(Serialisable, v)
    ensures ToValue(v).Some? && FromValue(t, ToValue(v).value) == Some(v)
  {
    SucceedsIff(v);
    SafeFaithful(t, v);
    RoundTrip(t, v);
  }

  // ------------------------------------------------------------- and only those

  /** Some value of the type can be serialised. */
  ghost predicate Habitable(t: Type) {
    exists v :: Inhabits(t, v)
  }

  ghost predicate Inhabits(t: Type, v: Rust) {
    HasType(t, v) && Everywhere(Serialisable, v)
  }

  ghost function Habitant(t: Type): (v: Rust)
    requires Habitable(t)
    ensures Inhabits(t, v)
  {
    var v :| Inhabits(t, v); v
  }

  /** Some value of the type can be a key. */
  ghost predicate HasKey(t: Type) {
    exists k :: HasType(t, k) && StringForm(k).Some?
  }

  /** All components of the type are inhabited by values that can be serialised. */
  ghost predicate Populated(t: Type) {
    Habitable(t) &&
    match t
    case OptionType(u) => Populated(u)
    case NewtypeType(u) => Populated(u)
    case SeqType(u) => Populated(u)
    case TupleType(ts) => forall i :: 0 <= i < |ts| ==> Populated(ts[i])
    case MapType(k, u) => HasKey(k) && Populated(u)
    case StructType(fs) => FieldsPopulated(fs)
    case EnumType(variants) =>
      && (forall i, j :: 0 <= i < j < |variants| ==> variants[i].name != variants[j].name)
      && forall i :: 0 <= i < |variants| ==> ShapePopulated(variants[i].shape)
    case _ => true
  }

  ghost predicate FieldsPopulated(fs: seq<FieldType>) {
    && (forall i, j :: 0 <= i < j < |fs| ==> fs[i].name != fs[j].name)
    && forall i :: 0 <= i < |fs| ==> Populated(fs[i].fieldType)
  }

  ghost predicate ShapePopulated(shape: Shape) {
    match shape
    case UnitShape => true
    case NewtypeShape(u) => Populated(u)
    case TupleShape(ts) => forall i :: 0 <= i < |ts| ==> Populated(ts[i])
    case StructShape(fs) => FieldsPopulated(fs)
  }

  /** The value can be written, but is not read back. */
  ghost predicate Loses(t: Type, v: Rust) {
    Inhabits(t, v) && !Everywhere(Faithful, v)
  }

  lemma {:induction false} NullOf(t: Type) returns (v: Rust)
    requires Nullable(t)
    ensures Inhabits(t, v) && NullForm(v)
  {
    match t {
      case UnitType => v := Unit;
      case OptionType(_) => v := Absent;
      case NewtypeType(u) =>
        var w := NullOf(u);
        v := Newtype(w);
    }
  }

  /** A value for each element, the lossy one in its place. */
  lemma LossyElements(ts: seq<Type>, i: nat, w: Rust) returns (vs: seq<Rust>)
    requires i < |ts| && Loses(ts[i], w) && forall j :: 0 <= j < |ts| ==> Habitable(ts[j])
    ensures HaveTypes(ts, vs) && vs[i] == w && forall j :: 0 <= j < |vs| ==> Everywhere(Serialisable, vs[j])
  {
    vs := seq(|ts|, j requires 0 <= j < |ts| => if j == i then w else Habitant(ts[j]));
    forall j | 0 <= j < |ts| ensures Inhabits(ts[j], vs[j]) {
    }
  }

  lemma LossyFields(ts: seq<FieldType>, i: nat, w: Rust) returns (fs: seq<Field>)
    requires i < |ts| && Loses(ts[i].fieldType, w) && FieldsPopulated(ts)
    ensures HasFields(ts, fs) && fs[i].value == w && forall j :: 0 <= j < |fs| ==> Everywhere(Serialisable, fs[j].value)
  {
    forall j | 0 <= j < |ts| ensures Habitable(ts[j].fieldType) {
      assert Populated(ts[j].fieldType);
    }
    fs := seq(|ts|, j requires 0 <= j < |ts| => Field(ts[j].name, if j == i then w else Habitant(ts[j].fieldType)));
    forall j | 0 <= j < |ts| ensures fs[j].name == ts[j].name && Inhabits(ts[j].fieldType, fs[j].value) {
    }
  }

  lemma LossyMap(t: Type, w: Rust) returns (v: Rust)
    requires t.MapType? && HasKey(t.key) && Loses(t.value, w)
    ensures Loses(t, v)
  {
    var k :| HasType(t.key, k) && StringForm(k).Some?;
    var m := map[k := w];
    v := Map(m);
    assert k in m && m[k] == w;
  }

  lemma LookupAt(variants: seq<VariantType>, i: nat)
    requires i < |variants| && forall i, j :: 0 <= i < j < |variants| ==> variants[i].name != variants[j].name
    ensures Lookup(variants, variants[i].name) == Some(variants[i].shape)
  {
    if i > 0 {
      assert variants[0].name != variants[i].name;
      LookupAt(variants[1..], i - 1);
    }
  }

  lemma LossyPresent(t: Type, w: Rust)
    requires t.OptionType? && (Loses(t.inner, w) || (Inhabits(t.inner, w) && NullForm(w)))
    ensures Loses(t, Present(w))
  {
  }

  lemma LossyNewtype(t: Type, w: Rust)
    requires t.NewtypeType? && Loses(t.inner, w)
    ensures Loses(t, Newtype(w))
  {
  }

  lemma LossySeq(t: Type, w: Rust)
    requires t.SeqType? && Loses(t.element, w)
    ensures Loses(t, Seq([w]))
  {
    assert [w][0] == w;
  }

  lemma LossyTuple(t: Type, i: nat, w: Rust) returns (v: Rust)
    requires t.TupleType? && i < |t.elements| && Loses(t.elements[i], w)
    requires forall j :: 0 <= j < |t.elements| ==> Habitable(t.elements[j])
    ensures Loses(t, v)
  {
    var vs := LossyElements(t.elements, i, w);
    v := Tuple(vs);
  }

  lemma LossyStruct(t: Type, i: nat, w: Rust) returns (v: Rust)
    requires t.StructType? && i < |t.fields| && Loses(t.fields[i].fieldType, w) && FieldsPopulated(t.fields)
    ensures Loses(t, v)
  {
    var fs := LossyFields(t.fields, i, w);
    v := Struct(fs);
  }

  /** The variant can be written, but is not read back. */
  ghost predicate LosesIn(shape: Shape, content: Content) {
    && HasShape(shape, content)
    && Everywhere(Serialisable, Variant("", content)) && !Everywhere(Faithful, Variant("", content))
  }

  lemma LossyOne(shape: Shape, w: Rust)
    requires shape.NewtypeShape? && Loses(shape.inner, w)
    ensures LosesIn(shape, One(w))
  {
  }

  lemma LossyMany(shape: Shape, i: nat, w: Rust) returns (content: Content)
    requires shape.TupleShape? && i < |shape.elements| && Loses(shape.elements[i], w)
    requires forall j :: 0 <= j < |shape.elements| ==> Habitable(shape.elements[j])
    ensures LosesIn(shape, content)
  {
    var vs := LossyElements(shape.elements, i, w);
    content := Many(vs);
  }

  lemma LossyNamed(shape: Shape, i: nat, w: Rust) returns (content: Content)
    requires shape.StructShape? && i < |shape.fields| && Loses(shape.fields[i].fieldType, w)
    requires FieldsPopulated(shape.fields)
    ensures LosesIn(shape, content)
  {
    var fs := LossyFields(shape.fields, i, w);
    content := Fields(fs);
  }

  lemma LossyVariant(t: Type, i: nat, content: Content)
    requires t.EnumType? && i < |t.variants| && LosesIn(t.variants[i].shape, content)
    requires Lookup(t.variants, t.variants[i].name) == Some(t.variants[i].shape)
    ensures Loses(t, Variant(t.variants[i].name, content))
  {
    TagIrrelevant(t.variants[i].name, content);
  }

  lemma TagIrrelevant(tag: string, content: Content)
    ensures Everywhere(Serialisable, Variant(tag, content)) <==> Everywhere(Serialisable, Variant("", content))
    ensures Everywhere(Faithful, Variant(tag, content)) <==> Everywhere(Faithful, Variant("", content))
  {
  }

  lemma LossyContent(shape: Shape) returns (content: Content)
    requires !ShapeSafe(shape) && ShapePopulated(shape)
    ensures LosesIn(shape, content)
    decreases shape
  {
    match shape {
      case NewtypeShape(u) =>
        var w := LossyValue(u);
        LossyOne(shape, w);
        content := One(w);
      case TupleShape(ts) =>
        var i :| 0 <= i < |ts| && !NullSafe(ts[i]);
        var w := LossyValue(ts[i]);
        content := LossyMany(shape, i, w);
      case StructShape(fs) =>
        var i :| 0 <= i < |fs| && !NullSafe(fs[i].fieldType);
        assert Populated(fs[i].fieldType);
        var w := LossyValue(fs[i].fieldType);
        content := LossyNamed(shape, i, w);
    }
  }

  /** A populated type with an option around a nullable type has a value that does not come back. */
  lemma {:induction false} LossyValue(t: Type) returns (v: Rust)
    requires !NullSafe(t) && Populated(t)
    ensures Loses(t, v)
    decreases t
  {
    match t {
      case OptionType(u) =>
        var w;
        if Nullable(u) { w := NullOf(u); } else { w := LossyValue(u); }
        LossyPresent(t, w);
        v := Present(w);
      case NewtypeType(u) =>
        var w := LossyValue(u);
        LossyNewtype(t, w);
        v := Newtype(w);
      case SeqType(u) =>
        var w := LossyValue(u);
        LossySeq(t, w);
        v := Seq([w]);
      case TupleType(ts) =>
        var i :| 0 <= i < |ts| && !NullSafe(ts[i]);
        var w := LossyValue(ts[i]);
        v := LossyTuple(t, i, w);
      case MapType(_, u) =>
        var w := LossyValue(u);
        v := LossyMap(t, w);
      case StructType(fs) =>
        var i :| 0 <= i < |fs| && !NullSafe(fs[i].fieldType);
        assert Populated(fs[i].fieldType);
        var w := LossyValue(fs[i].fieldType);
        v := LossyStruct(t, i, w);
      case EnumType(variants) =>
        var i :| 0 <= i < |variants| && !ShapeSafe(variants[i].shape);
        var content := LossyContent(variants[i].shape);
        LookupAt(variants, i);
        LossyVariant(t, i, content);
        v := Variant(variants[i].name, content);
    }
  }

  /** Whether the value is read back as it was written. */
  ghost predicate ComesBack(t: Type, v: Rust) {
    ToValue(v).Some? && FromValue(t, ToValue(v).value) == Some(v)
  }

  /** For populated types, every serialisable value comes back exactly if no option wraps a
      nullable type. */
  lemma SafeIff(t: Type)
    requires Populated(t)
    ensures NullSafe(t) <==> forall v :: Inhabits(t, v) ==> ComesBack(t, v)
  {
    if NullSafe(t) {
      forall v | Inhabits(t, v) ensures ComesBack(t, v) {
        SafeRoundTrip(t, v);
      }
    } else {
      var v := LossyValue(t);
      SucceedsIff(v);
      RoundTrip(t, v);
      assert !ComesBack(t, v);
    }
  }

  // ------------------------------------------------------------ the serialisers at work

  /** Items are pushed one by one; the first failure ends the serialisation. */
  method SerializeElements(vs: seq<Rust>, ghost ts: seq<Type>) returns (r: Option<Value>)
    requires HaveTypes(ts, vs)
    ensures r == ToList(vs)
    decreases vs, 0
  {
    var items: seq<Value> := [];
    for i := 0 to |vs|
      invariant |items| == i && forall j :: 0 <= j < i ==> ToValue(vs[j]) == Some(items[j])
    {
      var item := Serialize(vs[i], ts[i]);
      if item.None? { return None; }
      items := items + [item.value];
    }
    r := Some(List(items));
    assert items == ToList(vs).value.items;
  }

  lemma AttrsPrefix(fs: seq<Field>, n: nat)
    requires n < |fs|
    ensures fs[..n + 1][..n] == fs[..n] && fs[..n + 1][n] == fs[n]
  {
  }

  method SerializeFields(fs: seq<Field>, ghost ts: seq<FieldType>) returns (r: Option<Value>)
    requires HasFields(ts, fs)
    ensures r == ToAttrs(fs)
    decreases fs, 0
  {
    AttrsSucceed(fs);
    var attrs: map<string, Value> := map[];
    for n := 0 to |fs|
      invariant ToAttrs(fs[..n]) == Some(Attrs(attrs))
    {
      var value := Serialize(fs[n].value, ts[n].fieldType);
      if value.None? { return None; }
      AttrsPrefix(fs, n);
      attrs := attrs[fs[n].name := value.value];
    }
    assert fs[..|fs|] == fs;
    r := Some(Attrs(attrs));
  }

  /** What the value of the key serialises to has been entered under its string form. */
  ghost predicate EnteredAt(m: map<Rust, Rust>, attrs: map<string, Value>, k: Rust) {
    StringForm(k).Some? && StringForm(k).value in attrs && k in m && ToValue(m[k]) == Some(attrs[StringForm(k).value])
  }

  /** What has been entered after some of the keys. */
  ghost predicate Entered(m: map<Rust, Rust>, done: set<Rust>, attrs: map<string, Value>) {
    && (forall k {:trigger EnteredAt(m, attrs, k)} :: k in done ==> EnteredAt(m, attrs, k))
    && (forall s {:trigger NamedBy(done, s)} :: s in attrs ==> NamedBy(done, s))
  }

  ghost predicate NamedBy(keys: set<Rust>, s: string) {
    exists k :: k in keys && StringForm(k) == Some(s)
  }

  lemma EnteredSame(kt: Type, m: map<Rust, Rust>, attrs: map<string, Value>, x: Value)
    requires Holds(x, kt, m) && Entered(m, m.Keys, attrs)
    ensures x.attrs == attrs
  {
    forall s | s in attrs ensures s in x.attrs && x.attrs[s] == attrs[s] {
      assert NamedBy(m.Keys, s);
      var k :| k in m.Keys && StringForm(k) == Some(s);
      assert HeldAt(x, kt, m, k) && EnteredAt(m, attrs, k);
    }
    forall s | s in x.attrs ensures s in attrs {
      assert Named(m, s);
      var k :| k in m && StringForm(k) == Some(s);
      assert EnteredAt(m, attrs, k);
    }
  }

  lemma EnteredSucceeds(m: map<Rust, Rust>, attrs: map<string, Value>)
    requires Entered(m, m.Keys, attrs)
    ensures ToValue(Map(m)).Some?
  {
    forall k | k in m ensures StringForm(k).Some? && ToValue(m[k]).Some? {
      assert EnteredAt(m, attrs, k);
    }
  }

  lemma EnteredAll(t: Type, m: map<Rust, Rust>, attrs: map<string, Value>)
    requires HasType(t, Map(m)) && Entered(m, m.Keys, attrs)
    ensures ToValue(Map(m)) == Some(Attrs(attrs))
  {
    EnteredSucceeds(m, attrs);
    MapKeys(t, m);
    EnteredSame(t.key, m, attrs, ToValue(Map(m)).value);
  }

  ghost predicate AllOf(t: Type, vs: set<Rust>) {
    forall v :: v in vs ==> HasType(t, v)
  }

  /** Two keys of one type do not share a string form. */
  lemma KeysApart(kt: Type, k: Rust, k': Rust, s: string)
    requires HasType(kt, k) && HasType(kt, k') && StringForm(k) == Some(s) && k != k'
    ensures StringForm(k') != Some(s)
  {
    KeyRoundTrip(kt, k, s);
    if StringForm(k').Some? { KeyRoundTrip(kt, k', StringForm(k').value); }
  }

  lemma EnteredStep(kt: Type, m: map<Rust, Rust>, done: set<Rust>, attrs: map<string, Value>, k: Rust, s: string,
                    x: Value)
    requires AllOf(kt, done + {k}) && Entered(m, done, attrs)
    requires k in m && k !in done && StringForm(k) == Some(s) && ToValue(m[k]) == Some(x)
    ensures Entered(m, done + {k}, attrs[s := x])
  {
    var attrs' := attrs[s := x];
    forall j | j in done + {k} ensures EnteredAt(m, attrs', j) {
      if j != k {
        assert EnteredAt(m, attrs, j);
        KeysApart(kt, k, j, s);
      }
    }
    forall r | r in attrs' ensures NamedBy(done + {k}, r) {
      if r != s {
        assert NamedBy(done, r);
        var j :| j in done && StringForm(j) == Some(r);
        assert j in done + {k};
      }
    }
  }

  lemma EnteredNext(kt: Type, m: map<Rust, Rust>, todo: set<Rust>, attrs: map<string, Value>, k: Rust, s: string,
                    x: Value)
    requires AllOf(kt, m.Keys) && todo <= m.Keys && k in todo && Entered(m, m.Keys - todo, attrs)
    requires StringForm(k) == Some(s) && ToValue(m[k]) == Some(x)
    ensures Entered(m, m.Keys - (todo - {k}), attrs[s := x])
  {
    EnteredStep(kt, m, m.Keys - todo, attrs, k, s, x);
    assert m.Keys - (todo - {k}) == m.Keys - todo + {k};
  }

  lemma EnteredNone(m: map<Rust, Rust>)
    ensures Entered(m, m.Keys - m.Keys, map[])
  {
  }

  /** A key, which must serialise to a string, and then its value. */
  method SerializeEntry(m: map<Rust, Rust>, k: Rust, ghost t: Type) returns (r: Option<(string, Value)>)
    requires HasType(t, Map(m)) && k in m
    ensures r.None? ==> ToValue(Map(m)).None?
    ensures r.Some? ==> StringForm(k) == Some(r.value.0) && ToValue(m[k]) == Some(r.value.1)
    decreases Map(m), 0
  {
    var key := Serialize(k, t.key);
    if StringForm(k).Some? { TextIff(k, StringForm(k).value); }
    if key.None? || !key.value.Text? { return None; }
    TextIff(k, key.value.s);
    var value := Serialize(m[k], t.value);
    if value.None? { return None; }
    r := Some((key.value.s, value.value));
  }

  /** Map entries in any order. */
  method SerializeEntries(m: map<Rust, Rust>, ghost t: Type) returns (r: Option<Value>)
    requires HasType(t, Map(m))
    ensures r == ToValue(Map(m))
    decreases Map(m), 1
  {
    var attrs: map<string, Value> := map[];
    var todo := m.Keys;
    assert AllOf(t.key, m.Keys);
    EnteredNone(m);
    while todo != {}
      invariant todo <= m.Keys && Entered(m, m.Keys - todo, attrs)
      decreases todo
    {
      var k :| k in todo;
      var entry := SerializeEntry(m, k, t);
      if entry.None? { return None; }
      var (key, value) := entry.value;
      EnteredNext(t.key, m, todo, attrs, k, key, value);
      attrs := attrs[key := value];
      todo := todo - {k};
    }
    assert m.Keys - todo == m.Keys;
    EnteredAll(t, m, attrs);
    r := Some(Attrs(attrs));
  }

  method Serialize(v: Rust, ghost t: Type) returns (r: Option<Value>)
    requires HasType(t, v)
    ensures r == ToValue(v)
    decreases v, 2
  {
    match v {
      case Bool(b) => r := Some(Boolean(b));
      case Int(n) => r := if n <= MAX_I64 then Some(Integer(n)) else None;
      case Float(f) => r := Some(Floating(f));
      case Char(c) => r := Some(Text([c]));
      case Str(s) => r := Some(Text(s));
      case Bytes(_) => r := None;
      case Unit => r := Some(Null);
      case Absent => r := Some(Null);
      case Present(w) => r := Serialize(w, t.inner);
      case Newtype(w) => r := Serialize(w, t.inner);
      case Seq(vs) => r := SerializeElements(vs, seq(|vs|, i => t.element));
      case Tuple(vs) => r := SerializeElements(vs, t.elements);
      case Map(m) => r := SerializeEntries(m, t);
      case Struct(fs) => r := SerializeFields(fs, t.fields);
      case Variant(tag, content) => r := SerializeContent(tag, content, Lookup(t.variants, tag).value);
    }
  }

  method SerializeContent(tag: string, content: Content, ghost shape: Shape) returns (r: Option<Value>)
    requires HasShape(shape, content)
    ensures r == ToValue(Variant(tag, content))
    decreases content, 0
  {
    var inner: Option<Value>;
    match content {
      case NoContent => return Some(Text(tag));
      case One(w) => inner := Serialize(w, shape.inner);
      case Many(vs) => inner := SerializeElements(vs, shape.elements);
      case Fields(fs) => inner := SerializeFields(fs, shape.fields);
    }
    r := Tagged(tag, inner);
  }
}
