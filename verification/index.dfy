/** Keys and indexes. A key is one, two or three fields, written as its
    arity in a u32 followed by each component in order. An index is a
    number and a key extractor over the tuple; whether it is unique only
    matters to the select that returns at most one record. */
module KeyCodec {
  import opened Common
  import opened Wire
  import opened FieldCodec
  import opened TupleLayout

  /** The key shapes the index constructors admit. */
  datatype Key = Key1(k0: Field) | Key2(k0: Field, k1: Field) | Key3(k0: Field, k1: Field, k2: Field)

  /** What `append(key:)` may be handed: its parameter is generic, and any
      shape other than the three above is refused. */
  datatype KeyValue = Supported(key: Key) | UnsupportedShape

  /** The components of a key, in order. */
  function Components(k: Key): (fs: seq<Field>)
    ensures 1 <= |fs| <= 3 && fs[0] == k.k0
  {
    match k
    case Key1(a) => [a]
    case Key2(a, b) => [a, b]
    case Key3(a, b, c) => [a, b, c]
  }

  /** The key made of the given components, when there are one to three. */
  function KeyOf(fs: seq<Field>): (k: Option<Key>)
    ensures k.Some? <==> 1 <= |fs| <= 3
  {
    if |fs| == 1 then Some(Key1(fs[0]))
    else if |fs| == 2 then Some(Key2(fs[0], fs[1]))
    else if |fs| == 3 then Some(Key3(fs[0], fs[1], fs[2]))
    else None
  }

  /** A key and its components determine each other. */
  lemma ComponentsOfKeyOf(k: Key, fs: seq<Field>)
    ensures KeyOf(fs) == Some(k) <==> Components(k) == fs
  {
  }

  /** The bytes `append(key:)` writes for a key. */
  function KeyBytes(k: Key): seq<byte>
  {
    U32Bytes(|Components(k)|) + FieldsBytes(Components(k))
  }

  /** A one-field key is the u32 1 then the field; a two-field key the u32
      2 then both fields in order; a three-field key the u32 3 then all
      three in order. */
  lemma {:induction false} KeyLayout1(a: Field)
    ensures KeyBytes(Key1(a)) == U32Bytes(1) + FieldBytes(a)
  {
    FieldsBytesCons(a, []);
    assert [a] + [] == [a];
  }

  lemma {:induction false} KeyLayout2(a: Field, b: Field)
    ensures KeyBytes(Key2(a, b)) == U32Bytes(2) + FieldBytes(a) + FieldBytes(b)
  {
    FieldsBytesCons(b, []);
    FieldsBytesCons(a, [b]);
    assert [b] + [] == [b] && [a] + [b] == [a, b];
    Rebracket(U32Bytes(2), FieldBytes(a), FieldBytes(b));
  }

  lemma {:induction false} KeyLayout3(a: Field, b: Field, c: Field)
    ensures KeyBytes(Key3(a, b, c)) == U32Bytes(3) + FieldBytes(a) + FieldBytes(b) + FieldBytes(c)
  {
    FieldsBytesCons(c, []);
    FieldsBytesCons(b, [c]);
    FieldsBytesCons(a, [b, c]);
    assert [c] + [] == [c] && [b] + [c] == [b, c] && [a] + [b, c] == [a, b, c];
    Rebracket(FieldBytes(a), FieldBytes(b), FieldBytes(c));
    Rebracket(U32Bytes(3), FieldBytes(a), FieldBytes(b) + FieldBytes(c));
    Rebracket(U32Bytes(3) + FieldBytes(a), FieldBytes(b), FieldBytes(c));
  }

  /** The server's reading of a key of an index whose fields have kinds
      `kinds`: the arity word must match the index, then each component is
      read with its kind. */
  function ParseKey(kinds: seq<FieldKind>, s: seq<byte>): (r: Option<(Key, seq<byte>)>)
    ensures r.Some? ==> KindsOf(Components(r.value.0)) == kinds && |r.value.1| + 4 <= |s|
  {
    match DecodeU32(s)
    case Err(_) => None
    case Ok((arity, after)) =>
      if arity != |kinds| then None
      else match DecodeFields(kinds, after)
        case Err(_) => None
        case Ok((fs, rest)) =>
          match KeyOf(fs)
          case None => None
          case Some(k) => ComponentsOfKeyOf(k, fs); Some((k, rest))
  }

  /** Reading a written key back with the kinds of its components gives the
      key and consumes exactly its bytes. */
  lemma {:induction false} ParseKeyOfKeyBytes(k: Key, rest: seq<byte>)
    ensures ParseKey(KindsOf(Components(k)), KeyBytes(k) + rest) == Some((k, rest))
  {
    var fs := Components(k);
    Rebracket(U32Bytes(|fs|), FieldsBytes(fs), rest);
    DecodeU32OfU32Bytes(|fs|, FieldsBytes(fs) + rest);
    DecodeFieldsOfFieldsBytes(fs, rest);
    ComponentsOfKeyOf(k, fs);
  }

  /** Writes a key: its arity as a u32, then each component in order. Any
      other shape is a precondition failure, raised before anything is
      appended. */
  method AppendKey(buf: Buffer, key: KeyValue)
    requires key.Supported?
    modifies buf
    ensures buf.data == old(buf.data) + KeyBytes(key.key)
  {
    ghost var d := buf.data;
    match key.key {
      case Key1(a) =>
        buf.AppendNative(UInt32, 1);
        AppendField(buf, a);
        KeyLayout1(a);
        Rebracket(d, U32Bytes(1), FieldBytes(a));
      case Key2(a, b) =>
        buf.AppendNative(UInt32, 2);
        AppendField(buf, a);
        AppendField(buf, b);
        KeyLayout2(a, b);
        Rebracket(d, U32Bytes(2) + FieldBytes(a), FieldBytes(b));
        Rebracket(d, U32Bytes(2), FieldBytes(a));
      case Key3(a, b, c) =>
        buf.AppendNative(UInt32, 3);
        AppendField(buf, a);
        AppendField(buf, b);
        AppendField(buf, c);
        KeyLayout3(a, b, c);
        Rebracket(d, U32Bytes(3) + FieldBytes(a) + FieldBytes(b), FieldBytes(c));
        Rebracket(d, U32Bytes(3) + FieldBytes(a), FieldBytes(b));
        Rebracket(d, U32Bytes(3), FieldBytes(a));
    }
  }

  /** How a key is taken from a tuple; the three shapes are the three
      overloads of each index constructor. Extractors are pure. */
  datatype Extractor =
    | OneField(one: seq<Property> -> Field)
    | TwoFields(two: seq<Property> -> (Field, Field))
    | ThreeFields(three: seq<Property> -> (Field, Field, Field))

  function Extract(e: Extractor, t: seq<Property>): (k: Key)
  {
    match e
    case OneField(f) => Key1(f(t))
    case TwoFields(f) => var (a, b) := f(t); Key2(a, b)
    case ThreeFields(f) => var (a, b, c) := f(t); Key3(a, b, c)
  }

  /** An index: its number on the server, its key extractor, and whether
      it is a unique index. */
  datatype Index = Index(number: u32, extractor: Extractor, unique: bool)

  function ExtractKey(ix: Index, t: seq<Property>): Key
  {
    Extract(ix.extractor, t)
  }

  /** `uniqIndex(number, uniq:, body)`; the `uniq` argument is not used. */
  function UniqIndex(number: u32, uniq: bool, body: Extractor): (ix: Index)
    ensures ix.number == number && ix.extractor == body && ix.unique
  {
    Index(number, body, true)
  }

  /** `index(number, uniq:, body)`; the `uniq` argument is not used. */
  function NonUniqIndex(number: u32, uniq: bool, body: Extractor): (ix: Index)
    ensures ix.number == number && ix.extractor == body && !ix.unique
  {
    Index(number, body, false)
  }

  /** Neither the `uniq` argument nor the kind of index changes the key an
      index takes from a tuple, nor its number. */
  lemma UniquenessDoesNotAffectKeys(number: u32, u: bool, u': bool, body: Extractor, t: seq<Property>)
    ensures UniqIndex(number, u, body) == UniqIndex(number, u', body)
    ensures NonUniqIndex(number, u, body) == NonUniqIndex(number, u', body)
    ensures ExtractKey(UniqIndex(number, u, body), t) == ExtractKey(NonUniqIndex(number, u', body), t)
    ensures UniqIndex(number, u, body).number == NonUniqIndex(number, u', body).number
  {
  }

  /** The arity of an extracted key is fixed by the extractor's shape. */
  lemma {:induction false} ExtractedArity(e: Extractor, t: seq<Property>, t': seq<Property>)
    ensures |Components(Extract(e, t))| == |Components(Extract(e, t'))|
    ensures e.OneField? <==> |Components(Extract(e, t))| == 1
    ensures e.ThreeFields? <==> |Components(Extract(e, t))| == 3
  {
    match e
    case OneField(_) =>
    case TwoFields(f) =>
      var (a, b) := f(t);
      var (a', b') := f(t');
    case ThreeFields(f) =>
      var (a, b, c) := f(t);
      var (a', b', c') := f(t');
  }

  /** `append(key: index, from: tuple)`: writes the key the index takes
      from the tuple. */
  method AppendKeyFrom(buf: Buffer, ix: Index, t: seq<Property>)
    modifies buf
    ensures buf.data == old(buf.data) + KeyBytes(ExtractKey(ix, t))
  {
    AppendKey(buf, Supported(ExtractKey(ix, t)));
  }
}
