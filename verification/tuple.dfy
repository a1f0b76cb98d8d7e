/** Tuple layout. A tuple type is a sequence of stored properties in
    declaration order; each is a field, except the record's optional
    `storageInfo`, which never travels. On a request a tuple is its field
    count as a u32 followed by its fields; in a response each tuple is
    preceded by its body size and its cardinality. A tuple is decoded onto
    a default-initialised value, reading at most `cardinality` fields. */
module TupleLayout {
  import opened Common
  import opened Wire
  import opened FieldCodec

  /** A stored property with its current value. Reflection over the Swift
      value yields exactly these two kinds of children. */
  datatype Property = FieldProperty(name: string, value: Field) | StorageInfoProperty

  /** The declarative schema entry for a stored property. */
  datatype PropertyInfo = FieldInfo(name: string, kind: FieldKind) | StorageInfoInfo

  function InfoOf(p: Property): PropertyInfo
  {
    match p
    case FieldProperty(name, v) => FieldInfo(name, KindOf(v))
    case StorageInfoProperty => StorageInfoInfo
  }

  /** The schema of a tuple value: what reflecting on it reports. */
  function PropertiesInfo(t: seq<Property>): (infos: seq<PropertyInfo>)
    ensures |infos| == |t|
  {
    if t == [] then [] else [InfoOf(t[0])] + PropertiesInfo(t[1..])
  }

  /** Two values share a schema exactly when their first properties agree
      and so do the rest. */
  lemma {:induction false} SameSchemaCons(a: seq<Property>, b: seq<Property>)
    requires a != [] && b != []
    ensures PropertiesInfo(a) == PropertiesInfo(b) <==>
            InfoOf(a[0]) == InfoOf(b[0]) && PropertiesInfo(a[1..]) == PropertiesInfo(b[1..])
  {
    assert PropertiesInfo(a) == [InfoOf(a[0])] + PropertiesInfo(a[1..]);
    assert PropertiesInfo(b) == [InfoOf(b[0])] + PropertiesInfo(b[1..]);
    if PropertiesInfo(a) == PropertiesInfo(b) {
      assert PropertiesInfo(a)[0] == InfoOf(a[0]) && PropertiesInfo(a)[1..] == PropertiesInfo(a[1..]);
      assert PropertiesInfo(b)[0] == InfoOf(b[0]) && PropertiesInfo(b)[1..] == PropertiesInfo(b[1..]);
    }
  }

  /** The field values of a tuple, in declaration order, `storageInfo` skipped. */
  function Fields(t: seq<Property>): (fs: seq<Field>)
    ensures |fs| <= |t|
  {
    if t == [] then []
    else match t[0]
      case FieldProperty(_, v) => [v] + Fields(t[1..])
      case StorageInfoProperty => Fields(t[1..])
  }

  lemma {:induction false} FieldsAppend(a: seq<Property>, b: seq<Property>)
    ensures Fields(a + b) == Fields(a) + Fields(b)
  {
    if a == [] {
      assert a + b == b;
    } else {
      assert (a + b)[0] == a[0] && (a + b)[1..] == a[1..] + b;
      FieldsAppend(a[1..], b);
    }
  }

  lemma {:induction false} FieldsOfPrefixStep(t: seq<Property>, i: nat)
    requires i < |t|
    ensures t[i].FieldProperty? ==> Fields(t[..i + 1]) == Fields(t[..i]) + [t[i].value]
    ensures t[i].StorageInfoProperty? ==> Fields(t[..i + 1]) == Fields(t[..i])
    ensures |Fields(t[..i + 1])| <= |Fields(t)|
  {
    assert t[..i + 1] == t[..i] + [t[i]];
    assert t[..i + 1] + t[i + 1..] == t;
    assert [t[i]][1..] == [];
    FieldsAppend(t[..i], [t[i]]);
    FieldsAppend(t[..i + 1], t[i + 1..]);
  }

  /** The names of the fields of a schema, in order. */
  function FieldNames(infos: seq<PropertyInfo>): (names: seq<string>)
    ensures |names| <= |infos|
  {
    if infos == [] then []
    else match infos[0]
      case FieldInfo(name, _) => [name] + FieldNames(infos[1..])
      case StorageInfoInfo => FieldNames(infos[1..])
  }

  lemma {:induction false} FieldNamesAppend(a: seq<PropertyInfo>, b: seq<PropertyInfo>)
    ensures FieldNames(a + b) == FieldNames(a) + FieldNames(b)
  {
    if a == [] {
      assert a + b == b;
    } else {
      assert (a + b)[0] == a[0] && (a + b)[1..] == a[1..] + b;
      FieldNamesAppend(a[1..], b);
    }
  }

  /** Encodes a tuple: a u32 placeholder, each field in declaration order
      (skipping `storageInfo`), then the placeholder patched with the number
      of fields written. The bytes before the tuple are left as they were. */
  method AppendTuple(buf: Buffer, t: seq<Property>)
    requires |Fields(t)| < 0x1_0000_0000
    modifies buf
    ensures buf.data == old(buf.data) + U32Bytes(|Fields(t)|) + FieldsBytes(Fields(t))
  {
    var cardinalityAt := |buf.data|;
    buf.AppendNative(UInt32, 0);
    ghost var head := buf.data;
    var cardinality := AppendFieldsOf(buf, t);
    ghost var body := FieldsBytes(Fields(t));
    buf.WriteNativeAt(cardinalityAt, UInt32, cardinality);
    assert (head + body)[..cardinalityAt] == old(buf.data);
    assert (head + body)[cardinalityAt + 4..] == body;
  }

  /** The loop of `AppendTuple`: appends the fields of `t` in order and
      counts them. */
  method AppendFieldsOf(buf: Buffer, t: seq<Property>) returns (cardinality: u32)
    requires |Fields(t)| < 0x1_0000_0000
    modifies buf
    ensures cardinality == |Fields(t)|
    ensures buf.data == old(buf.data) + FieldsBytes(Fields(t))
  {
    cardinality := 0;
    for i := 0 to |t|
      invariant cardinality == |Fields(t[..i])| <= |Fields(t)|
      invariant buf.data == old(buf.data) + FieldsBytes(Fields(t[..i]))
    {
      FieldsOfPrefixStep(t, i);
      ghost var done := Fields(t[..i]);
      match t[i] {
        case FieldProperty(_, v) =>
          FieldsBytesSnoc(done, v);
          Rebracket(old(buf.data), FieldsBytes(done), FieldBytes(v));
          AppendField(buf, v);
          cardinality := cardinality + 1;
        case StorageInfoProperty =>
      }
    }
    assert t[..|t|] == t;
  }

  /** A tuple as received: its cardinality and its body bytes. */
  datatype UnsafeTuple = UnsafeTuple(cardinality: u32, data: seq<byte>)

  /** Reads a response tuple: u32 body size, u32 cardinality, then exactly
      that many body bytes. */
  function DecodeUnsafeTuple(s: seq<byte>): (r: Result<(UnsafeTuple, seq<byte>)>)
    ensures r.Ok? ==> |r.value.1| + 8 + |r.value.0.data| == |s|
  {
    var size :- DecodeU32(s);
    var cardinality :- DecodeU32(size.1);
    var body :- TakeBytes(cardinality.1, size.0);
    Ok((UnsafeTuple(cardinality.0, body.0), body.1))
  }

  /** How the server lays out a tuple in a response. */
  function ResponseTupleBytes(t: UnsafeTuple): (r: seq<byte>)
    requires |t.data| < 0x1_0000_0000
    ensures |r| == 8 + |t.data|
  {
    U32Bytes(|t.data|) + U32Bytes(t.cardinality) + t.data
  }

  lemma {:induction false} DecodeUnsafeTupleOfResponseTupleBytes(t: UnsafeTuple, rest: seq<byte>)
    requires |t.data| < 0x1_0000_0000
    ensures DecodeUnsafeTuple(ResponseTupleBytes(t) + rest) == Ok((t, rest))
  {
    var size, card := U32Bytes(|t.data|), U32Bytes(t.cardinality);
    assert ResponseTupleBytes(t) + rest == size + (card + (t.data + rest));
    DecodeU32OfU32Bytes(|t.data|, card + (t.data + rest));
    DecodeU32OfU32Bytes(t.cardinality, t.data + rest);
    TakeBytesOfAppend(t.data, rest);
  }

  method ReadUnsafeTuple(r: Reader) returns (res: Result<UnsafeTuple>)
    modifies r
    ensures Stepped(DecodeUnsafeTuple(old(r.rest)), res, r.rest)
  {
    var size := r.ReadU32();
    if size.Err? {
      return Err(size.error);
    }
    var cardinality := r.ReadU32();
    if cardinality.Err? {
      return Err(cardinality.error);
    }
    var body := r.ReadBytes(size.value);
    if body.Err? {
      return Err(body.error);
    }
    res := Ok(UnsafeTuple(cardinality.value, body.value));
  }

  /** Prefixes the decoded properties with `done` on success. */
  function Prepend(done: seq<Property>, r: Result<seq<Property>>): Result<seq<Property>>
  {
    if r.Ok? then Ok(done + r.value) else r
  }

  lemma PrependNothing(r: Result<seq<Property>>)
    ensures Prepend([], r) == r
  {
    if r.Ok? {
      assert [] + r.value == r.value;
    }
  }

  lemma PrependOne(done: seq<Property>, x: Property, r: Result<seq<Property>>)
    ensures Prepend(done + [x], r) == Prepend(done, Prepend([x], r))
  {
    if r.Ok? {
      assert done + [x] + r.value == done + ([x] + r.value);
    }
  }

  /** What decoding does to one property while `remains` fields are left on
      the wire: a field property takes the next field, read with its own
      kind, unless none is left; `storageInfo` is never read. Gives the new
      property, the bytes after it and the fields then left. */
  function DecodeProperty(p: Property, s: seq<byte>, remains: nat): (r: Result<(Property, seq<byte>, nat)>)
    ensures r.Ok? ==> InfoOf(r.value.0) == InfoOf(p)
    ensures r.Ok? && (p.StorageInfoProperty? || remains == 0) ==> r.value == (p, s, remains)
    ensures r.Ok? && p.FieldProperty? && remains > 0 ==> r.value.2 == remains - 1
  {
    match p
    case FieldProperty(name, current) =>
      if remains == 0 then Ok((p, s, 0))
      else
        var f :- DecodeField(KindOf(current), s);
        Ok((FieldProperty(name, f.0), f.1, remains - 1))
    case StorageInfoProperty => Ok((p, s, remains))
  }

  /** Decodes the body `s` onto `props` (the default value) while `remains`
      fields are left on the wire, property by property; once `remains`
      reaches 0 the remaining properties keep their values and nothing more
      is read. */
  function DecodeOnto(props: seq<Property>, s: seq<byte>, remains: nat): (r: Result<seq<Property>>)
    ensures r.Ok? ==> PropertiesInfo(r.value) == PropertiesInfo(props)
    decreases |props|
  {
    if props == [] then Ok([])
    else
      var step :- DecodeProperty(props[0], s, remains);
      Prepend([step.0], DecodeOnto(props[1..], step.1, step.2))
  }

  /** `props` with its first `|vs|` field values replaced by `vs`. */
  function Overwrite(props: seq<Property>, vs: seq<Field>): (r: seq<Property>)
    ensures |r| == |props|
  {
    if props == [] || vs == [] then props
    else match props[0]
      case FieldProperty(name, _) => [FieldProperty(name, vs[0])] + Overwrite(props[1..], vs[1..])
      case StorageInfoProperty => [props[0]] + Overwrite(props[1..], vs)
  }

  /** One step of `DecodeOnto` on the suffix starting at `i`. */
  lemma {:induction false} DecodeOntoSuffix(props: seq<Property>, i: nat, s: seq<byte>, remains: nat)
    requires i < |props|
    ensures DecodeOnto(props[i..], s, remains) ==
              match DecodeProperty(props[i], s, remains)
              case Err(e) => Err(e)
              case Ok(step) => Prepend([step.0], DecodeOnto(props[i + 1..], step.1, step.2))
  {
    assert props[i..][0] == props[i] && props[i..][1..] == props[i + 1..];
  }

  /** Overwriting keeps the defaults of the fields past `vs`. */
  lemma {:induction false} FieldsOfOverwrite(props: seq<Property>, vs: seq<Field>)
    requires |vs| <= |Fields(props)|
    ensures Fields(Overwrite(props, vs)) == vs + Fields(props)[|vs|..]
    decreases |props|
  {
    if props == [] || vs == [] {
      assert vs + Fields(props)[0..] == Fields(props);
    } else {
      var p, ps := props[0], props[1..];
      assert props == [p] + ps;
      FieldsCons(p, ps);
      var vs' := if p.FieldProperty? then vs[1..] else vs;
      FieldsOfOverwrite(ps, vs');
      FieldsOfOverwriteCons(p, ps, vs);
    }
  }

  /** The step of `FieldsOfOverwrite`, given its claim for the tail. */
  lemma {:induction false} FieldsOfOverwriteCons(p: Property, ps: seq<Property>, vs: seq<Field>)
    requires vs != [] && |vs| <= |Fields([p] + ps)|
    requires Fields([p] + ps) == (if p.FieldProperty? then [p.value] else []) + Fields(ps)
    requires p.FieldProperty? ==> Fields(Overwrite(ps, vs[1..])) == vs[1..] + Fields(ps)[|vs| - 1..]
    requires p.StorageInfoProperty? ==> Fields(Overwrite(ps, vs)) == vs + Fields(ps)[|vs|..]
    ensures Fields(Overwrite([p] + ps, vs)) == vs + Fields([p] + ps)[|vs|..]
  {
    var props := [p] + ps;
    assert props[0] == p && props[1..] == ps;
    if p.FieldProperty? {
      var tail := Overwrite(ps, vs[1..]);
      var later := Fields(ps)[|vs| - 1..];
      assert Overwrite(props, vs) == [FieldProperty(p.name, vs[0])] + tail;
      FieldsCons(FieldProperty(p.name, vs[0]), tail);
      assert Fields(props)[|vs|..] == later;
      assert [vs[0]] + (vs[1..] + later) == vs + later;
    } else {
      var tail := Overwrite(ps, vs);
      assert Overwrite(props, vs) == [p] + tail;
      FieldsCons(p, tail);
      assert [] + Fields(ps) == Fields(ps);
    }
  }

  lemma {:induction false} FieldsCons(p: Property, t: seq<Property>)
    ensures Fields([p] + t) == (if p.FieldProperty? then [p.value] else []) + Fields(t)
  {
    assert ([p] + t)[0] == p && ([p] + t)[1..] == t;
    assert [] + Fields(t) == Fields(t);
  }

  /** Overwriting a value with the fields of a value of the same schema
      gives that value. */
  lemma {:induction false} OverwriteWithOwnFields(props: seq<Property>, t: seq<Property>)
    requires PropertiesInfo(props) == PropertiesInfo(t)
    ensures Overwrite(props, Fields(t)) == t
  {
    if props != [] {
      SameSchemaCons(props, t);
      OverwriteWithOwnFields(props[1..], t[1..]);
      match t[0]
      case FieldProperty(_, v) =>
        assert Fields(t) == [v] + Fields(t[1..]);
        assert [t[0]] + t[1..] == t;
      case StorageInfoProperty =>
        if Fields(t) != [] {
          assert [t[0]] + t[1..] == t;
        } else {
          OverwriteEmpty(props);
          EmptyFieldsSameSchema(props, t);
        }
    }
  }

  lemma {:induction false} OverwriteEmpty(props: seq<Property>)
    ensures Overwrite(props, []) == props
  {
  }

  /** Two values of one schema without fields are equal: they are all
      `storageInfo`. */
  lemma {:induction false} EmptyFieldsSameSchema(a: seq<Property>, b: seq<Property>)
    requires PropertiesInfo(a) == PropertiesInfo(b) && Fields(b) == []
    ensures a == b
  {
    if a != [] {
      SameSchemaCons(a, b);
      match b[0]
      case FieldProperty(_, v) =>
        assert false;
      case StorageInfoProperty =>
        EmptyFieldsSameSchema(a[1..], b[1..]);
        assert a == [a[0]] + a[1..] && b == [b[0]] + b[1..];
    }
  }

  /** With nothing left on the wire the value keeps every default. */
  lemma {:induction false} DecodeOntoNoneRemaining(props: seq<Property>, s: seq<byte>)
    ensures DecodeOnto(props, s, 0) == Ok(props)
  {
    if props != [] {
      DecodeOntoNoneRemaining(props[1..], s);
      assert [props[0]] + props[1..] == props;
    }
  }

  lemma {:induction false} KindsOfCons(vs: seq<Field>, fs: seq<Field>)
    requires vs != [] && |vs| <= |fs| && KindsOf(vs) == KindsOf(fs)[..|vs|]
    ensures KindOf(vs[0]) == KindOf(fs[0]) && KindsOf(vs[1..]) == KindsOf(fs[1..])[..|vs| - 1]
  {
    assert KindsOf(vs) == [KindOf(vs[0])] + KindsOf(vs[1..]);
    assert KindsOf(fs) == [KindOf(fs[0])] + KindsOf(fs[1..]);
    assert KindsOf(vs)[0] == KindsOf(fs)[0];
    assert KindsOf(vs)[1..] == KindsOf(fs)[1..|vs|];
  }

  /** Decoding the encodings of `vs` with cardinality `|vs|`, where `vs`
      have the kinds of the first `|vs|` fields of the schema. */
  lemma {:induction false} DecodeOntoOfFieldsPrefix(props: seq<Property>, vs: seq<Field>, rest: seq<byte>)
    requires |vs| <= |Fields(props)| && KindsOf(vs) == KindsOf(Fields(props))[..|vs|]
    ensures DecodeOnto(props, FieldsBytes(vs) + rest, |vs|) == Ok(Overwrite(props, vs))
  {
    if vs == [] {
      assert FieldsBytes(vs) + rest == rest;
      DecodeOntoNoneRemaining(props, rest);
    } else {
      match props[0]
      case FieldProperty(name, current) =>
        assert Fields(props) == [current] + Fields(props[1..]);
        KindsOfCons(vs, Fields(props));
        Rebracket(FieldBytes(vs[0]), FieldsBytes(vs[1..]), rest);
        DecodeFieldOfFieldBytes(vs[0], FieldsBytes(vs[1..]) + rest);
        DecodeOntoOfFieldsPrefix(props[1..], vs[1..], rest);
      case StorageInfoProperty =>
        DecodeOntoOfFieldsPrefix(props[1..], vs, rest);
    }
  }

  /** A wire holding fewer fields than the schema: the first `|vs|` fields
      take the wire's values, the others keep their defaults, and no error is
      raised. */
  lemma {:induction false} DecodeOntoShortWire(props: seq<Property>, vs: seq<Field>, rest: seq<byte>)
    requires |vs| <= |Fields(props)| && KindsOf(vs) == KindsOf(Fields(props))[..|vs|]
    ensures DecodeOnto(props, FieldsBytes(vs) + rest, |vs|) == Ok(Overwrite(props, vs))
    ensures Fields(Overwrite(props, vs)) == vs + Fields(props)[|vs|..]
  {
    DecodeOntoOfFieldsPrefix(props, vs, rest);
    FieldsOfOverwrite(props, vs);
  }

  /** Decoding the body written for `t` onto a default value of the same
      schema, with `t`'s cardinality, gives `t` back. */
  lemma {:induction false} DecodeOntoOfFieldsBytes(defaults: seq<Property>, t: seq<Property>, rest: seq<byte>)
    requires PropertiesInfo(defaults) == PropertiesInfo(t)
    ensures DecodeOnto(defaults, FieldsBytes(Fields(t)) + rest, |Fields(t)|) == Ok(t)
  {
    SameSchemaSameKinds(defaults, t);
    DecodeOntoShortWire(defaults, Fields(t), rest);
    OverwriteWithOwnFields(defaults, t);
  }

  lemma {:induction false} SameSchemaSameKinds(a: seq<Property>, b: seq<Property>)
    requires PropertiesInfo(a) == PropertiesInfo(b)
    ensures KindsOf(Fields(a)) == KindsOf(Fields(b))
  {
    if a != [] {
      SameSchemaCons(a, b);
      SameSchemaSameKinds(a[1..], b[1..]);
      match a[0]
      case FieldProperty(_, v) =>
        assert KindsOf(Fields(a)) == [KindOf(v)] + KindsOf(Fields(a[1..]));
        assert KindsOf(Fields(b)) == [KindOf(b[0].value)] + KindsOf(Fields(b[1..]));
      case StorageInfoProperty =>
    }
  }

  /** A cardinality beyond the schema's field count changes nothing: the
      surplus wire fields are never read. */
  lemma {:induction false} DecodeOntoIgnoresSurplus(props: seq<Property>, s: seq<byte>, remains: nat)
    requires remains >= |Fields(props)|
    ensures DecodeOnto(props, s, remains) == DecodeOnto(props, s, |Fields(props)|)
  {
    if props != [] {
      var p, ps := props[0], props[1..];
      FieldsCons(p, ps);
      assert [p] + ps == props;
      if p.FieldProperty? {
        var f := DecodeField(KindOf(p.value), s);
        if f.Ok? {
          DecodeOntoIgnoresSurplus(ps, f.value.1, remains - 1);
        }
      } else {
        DecodeOntoIgnoresSurplus(ps, s, remains);
      }
    }
  }

  /** The counted field reader of a received tuple. */
  class TupleReader {
    const cursor: Reader
    var remains: u32

    constructor (cursor: Reader, remains: u32)
      ensures this.cursor == cursor && this.remains == remains
    {
      this.cursor := cursor;
      this.remains := remains;
    }

    /** Reads the next field, or gives `None` without reading once the
        cardinality is used up. Each read attempt uses up one field, so
        `remains` never goes below zero. */
    method Read(kind: FieldKind) returns (r: Result<Option<Field>>)
      modifies this, cursor
      ensures old(remains) == 0 ==> r == Ok(None) && remains == 0 && cursor.rest == old(cursor.rest)
      ensures old(remains) > 0 ==> remains == old(remains) - 1 && r != Ok(None)
      ensures old(remains) > 0 ==>
                Stepped(DecodeField(kind, old(cursor.rest)),
                        if r.Ok? && r.value.Some? then Ok(r.value.value) else Err(r.error), cursor.rest)
    {
      if remains == 0 {
        return Ok(None);
      }
      var field := ReadField(cursor, kind);
      remains := remains - 1;
      if field.Err? {
        return Err(field.error);
      }
      r := Ok(Some(field.value));
    }
  }

  /** One turn of the loop of `init(fromUnsafe:)`: a field property takes
      the next field of the reader, or keeps its value when the reader has
      none left; `storageInfo` is skipped. */
  method ReadProperty(reader: TupleReader, p: Property) returns (r: Result<Property>)
    modifies reader, reader.cursor
    ensures match DecodeProperty(p, old(reader.cursor.rest), old(reader.remains))
            case Err(e) => r == Err(e)
            case Ok(step) => r == Ok(step.0) && reader.cursor.rest == step.1 && reader.remains == step.2
  {
    match p {
      case FieldProperty(name, current) =>
        var field := reader.Read(KindOf(current));
        if field.Err? {
          return Err(field.error);
        }
        r := if field.value.Some? then Ok(FieldProperty(name, field.value.value)) else Ok(p);
      case StorageInfoProperty =>
        r := Ok(p);
    }
  }

  /** Initialises a tuple from a received one: starting from the default
      value, each field property in turn takes the next field of the reader,
      and stays at its default once the reader has none left. */
  method InitFromUnsafe(defaults: seq<Property>, tuple: UnsafeTuple) returns (r: Result<seq<Property>>)
    ensures r == DecodeOnto(defaults, tuple.data, tuple.cardinality)
  {
    var cursor := new Reader(tuple.data);
    var reader := new TupleReader(cursor, tuple.cardinality);
    var self := defaults;
    assert self[..0] == [] && defaults[0..] == defaults;
    PrependNothing(DecodeOnto(defaults, tuple.data, tuple.cardinality));
    for i := 0 to |defaults|
      invariant |self| == |defaults| && self[i..] == defaults[i..]
      invariant Prepend(self[..i], DecodeOnto(defaults[i..], cursor.rest, reader.remains))
                == DecodeOnto(defaults, tuple.data, tuple.cardinality)
    {
      DecodeOntoSuffix(defaults, i, cursor.rest, reader.remains);
      ghost var done := self[..i];
      var x := ReadProperty(reader, defaults[i]);
      if x.Err? {
        return Err(x.error);
      }
      self := self[i := x.value];
      assert self[..i + 1] == done + [x.value];
      PrependOne(done, x.value, DecodeOnto(defaults[i + 1..], cursor.rest, reader.remains));
    }
    assert self[..|defaults|] == self && defaults[|defaults|..] == [] && self + [] == self;
    return Ok(self);
  }

  /** Resolves a field to its position among the field properties:
      `storageInfo` is not counted. The field must be one of the tuple's. */
  method ResolveField(infos: seq<PropertyInfo>, name: string) returns (n: nat)
    requires name in FieldNames(infos)
    ensures n < |FieldNames(infos)| && FieldNames(infos)[n] == name
    ensures name !in FieldNames(infos)[..n]
  {
    var i := 0;
    n := 0;
    while i < |infos|
      invariant 0 <= i <= |infos|
      invariant n == |FieldNames(infos[..i])| && name !in FieldNames(infos[..i])
      invariant FieldNames(infos) == FieldNames(infos[..i]) + FieldNames(infos[i..])
    {
      assert infos[..i + 1] == infos[..i] + [infos[i]];
      assert infos[i..] == [infos[i]] + infos[i + 1..];
      FieldNamesAppend(infos[..i], [infos[i]]);
      FieldNamesAppend([infos[i]], infos[i + 1..]);
      assert [infos[i]][1..] == [];
      match infos[i] {
        case FieldInfo(field, _) =>
          if field == name {
            assert FieldNames(infos)[n] == name;
            return;
          }
          n := n + 1;
        case StorageInfoInfo =>
      }
      FieldNamesAppend(infos[..i + 1], infos[i + 1..]);
      assert infos[..i + 1] + infos[i + 1..] == infos;
      i := i + 1;
    }
    assert false;
  }

  /** The schema of the six-field record used by the package's tests, with
      `storageInfo` declared last. */
  const InplaceSchema: seq<PropertyInfo> := [
    FieldInfo("id", NativeKind(Int32)),
    FieldInfo("one", NativeKind(UInt32)),
    FieldInfo("two", NativeKind(UInt32)),
    FieldInfo("checkUp", NativeKind(Int32)),
    FieldInfo("int2", NativeKind(Int32)),
    FieldInfo("name", TextKind),
    StorageInfoInfo
  ]

  /** In that schema `checkUp` is field number 3. */
  method ResolveCheckUp() returns (n: nat)
    ensures n == 3
  {
    assert FieldNames(InplaceSchema) == ["id", "one", "two", "checkUp", "int2", "name"];
    n := ResolveField(InplaceSchema, "checkUp");
  }

  /** The per-type cache of schemas: filled on first use, read-only after. */
  class SchemaCache {
    var entries: map<nat, seq<PropertyInfo>>

    constructor ()
      ensures entries == map[]
    {
      entries := map[];
    }

    /** The schema of the type `typeId`, reflected from its default value
        `prototype` the first time and served from the cache afterwards. */
    method PropertiesInfoOf(typeId: nat, prototype: seq<Property>) returns (infos: seq<PropertyInfo>)
      modifies this
      ensures typeId in old(entries) ==> infos == old(entries)[typeId] && entries == old(entries)
      ensures typeId !in old(entries) ==> infos == PropertiesInfo(prototype) && entries == old(entries)[typeId := infos]
      ensures forall id :: id in old(entries) ==> id in entries && entries[id] == old(entries)[id]
    {
      if typeId in entries {
        return entries[typeId];
      }
      infos := PropertiesInfo(prototype);
      entries := entries[typeId := infos];
    }
  }
}
