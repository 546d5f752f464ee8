/** The byte cursor and the byte buffer of the row codec (crates/ultrasql-catalog/src/encoding.rs). */
module ReaderWriter {
  import opened Wrappers
  import opened Text
  import opened DataTypes
  import opened LittleEndian
  import opened CodecPrimitives
  import opened TypeCodec

  /** A read did what its parser says: the same error, or the value with the cursor after it. */
  predicate Reads<T(==)>(r: Result<T, DecodeError>, p: Parsed<T>, rest: Bytes) {
    match p
    case Err(e) => r == Err(e)
    case Ok((v, s)) => r == Ok(v) && rest == s
  }

  /** The outcome of reading more items after those already read. */
  function After<T>(done: seq<T>, p: Parsed<seq<T>>): Parsed<seq<T>> {
    match p
    case Err(e) => Err(e)
    case Ok((more, s)) => Ok((done + more, s))
  }

  lemma AfterNothing<T>(p: Parsed<seq<T>>)
    ensures After([], p) == p
  {
    if p.Ok? {
      assert [] + p.value.0 == p.value.0;
    }
  }

  lemma AfterOneMore<T>(done: seq<T>, x: T, p: Parsed<seq<T>>)
    ensures After(done, After([x], p)) == After(done + [x], p)
  {
    if p.Ok? {
      assert done + ([x] + p.value.0) == (done + [x]) + p.value.0;
    }
  }

  lemma TextsFail(ts: seq<Utf8>, n: nat, b: Bytes)
    requires n > 0
    ensures ParseText(b).Err? ==> After(ts, ParseTexts(n, b)) == Err(ParseText(b).error)
  {
  }

  lemma TextsGoOn(ts: seq<Utf8>, n: nat, b: Bytes, t: Utf8, rest: Bytes)
    requires n > 0 && ParseText(b) == Ok((t, rest))
    ensures After(ts, ParseTexts(n, b)) == After(ts + [t], ParseTexts(n - 1, rest))
  {
    AfterOneMore(ts, t, ParseTexts(n - 1, rest));
  }

  lemma TextsEnd(ts: seq<Utf8>, b: Bytes)
    ensures After(ts, ParseTexts(0, b)) == Ok((ts, b))
  {
    assert ts + [] == ts;
  }

  lemma FieldsEnd(fields: seq<TypeField>, b: Bytes)
    ensures After(fields, ParseFields(0, b)) == Ok((fields, b))
  {
    assert fields + [] == fields;
  }

  /** A name and a type. */
  function ParseField(b: Bytes): Parsed<TypeField> {
    var (name, rest) :- ParseText(b);
    var (ty, rest) :- ParseType(rest);
    Ok((TypeField(name, ty), rest))
  }

  lemma FieldsFail(fields: seq<TypeField>, n: nat, b: Bytes)
    requires n > 0
    ensures ParseField(b).Err? ==> After(fields, ParseFields(n, b)) == Err(ParseField(b).error)
  {
  }

  lemma FieldsGoOn(fields: seq<TypeField>, n: nat, b: Bytes, f: TypeField, rest: Bytes)
    requires n > 0 && ParseField(b) == Ok((f, rest))
    ensures After(fields, ParseFields(n, b)) == After(fields + [f], ParseFields(n - 1, rest))
  {
    AfterOneMore(fields, f, ParseFields(n - 1, rest));
  }

  class Reader {
    const bytes: Bytes
    var pos: nat

    constructor (bytes: Bytes)
      ensures Valid() && Rest() == bytes && this.bytes == bytes
    {
      this.bytes, pos := bytes, 0;
    }

    ghost predicate Valid()
      reads this
    {
      pos <= |bytes|
    }

    ghost function Rest(): Bytes
      requires Valid()
      reads this
    {
      bytes[pos..]
    }

    function Remaining(): nat
      requires Valid()
      reads this
    {
      |bytes| - pos
    }

    method Finish() returns (r: Result<(), DecodeError>)
      requires Valid()
      ensures r == if Rest() == [] then Ok(()) else Err(TrailingBytes(|Rest()|))
    {
      return if Remaining() == 0 then Ok(()) else Err(TrailingBytes(Remaining()));
    }

    method Take(n: nat) returns (r: Result<Bytes, DecodeError>)
      requires Valid()
      modifies this`pos
      ensures Valid() && old(pos) <= pos
      ensures if n > |old(Rest())| then r == Err(UnexpectedEnd) && pos == old(pos)
              else r == Ok(old(Rest())[..n]) && Rest() == old(Rest())[n..]
    {
      if pos + n > |bytes| {
        return Err(UnexpectedEnd);
      }
      r := Ok(bytes[pos..pos + n]);
      assert bytes[pos..][..n] == bytes[pos..pos + n] && bytes[pos..][n..] == bytes[pos + n..];
      pos := pos + n;
    }

    method Uint(w: nat) returns (r: Result<nat, DecodeError>)
      requires Valid()
      modifies this`pos
      ensures Valid() && old(pos) <= pos && Reads(r, ParseUint(old(Rest()), w), Rest())
      ensures r.Ok? ==> r.value < Pow256(w) && pos == old(pos) + w
    {
      var b :- Take(w);
      r := Ok(FromLE(b));
    }

    method Flag() returns (r: Result<bool, DecodeError>)
      requires Valid()
      modifies this`pos
      ensures Valid() && old(pos) <= pos && Reads(r, ParseFlag(old(Rest())), Rest())
    {
      var b :- Take(1);
      if b[0] as int == 0 {
        return Ok(false);
      } else if b[0] as int == 1 {
        return Ok(true);
      }
      return Err(InvalidTag(b[0]));
    }

    method Str() returns (r: Result<Utf8, DecodeError>)
      requires Valid()
      modifies this`pos
      ensures Valid() && old(pos) <= pos && Reads(r, ParseText(old(Rest())), Rest())
      ensures r.Ok? ==> old(pos) < pos
    {
      var n :- Uint(4);
      var b :- Take(n);
      if !ValidUtf8(b) {
        return Err(InvalidUtf8);
      }
      return Ok(b);
    }

    /** A presence byte, then the number. */
    method Opt() returns (r: Result<Option<nat>, DecodeError>)
      requires Valid()
      modifies this`pos
      ensures Valid() && old(pos) <= pos && Reads(r, ParseOpt(old(Rest())), Rest())
    {
      var present :- Flag();
      if !present {
        return Ok(None);
      }
      var n :- Uint(4);
      return Ok(Some(n));
    }

    /** A count of items of at least `minWidth` bytes, refused when they cannot all be there. */
    method Count(minWidth: nat) returns (r: Result<nat, DecodeError>)
      requires Valid()
      modifies this`pos
      ensures Valid() && old(pos) <= pos && Reads(r, ParseCount(old(Rest()), minWidth), Rest())
    {
      var n :- Uint(4);
      if Remaining() < n * minWidth {
        return Err(UnexpectedEnd);
      }
      return Ok(n);
    }

    method Texts(n: nat) returns (r: Result<seq<Utf8>, DecodeError>)
      requires Valid()
      modifies this`pos
      ensures Valid() && old(pos) <= pos && Reads(r, ParseTexts(n, old(Rest())), Rest())
    {
      var ts: seq<Utf8> := [];
      ghost var left, goal := n, ParseTexts(n, Rest());
      ghost var more := goal;
      AfterNothing(goal);
      for i := 0 to n
        invariant Valid() && old(pos) <= pos && left == n - i
        invariant After(ts, more) == goal && more == ParseTexts(left, Rest())
      {
        ghost var here := Rest();
        TextsFail(ts, left, here);
        var t :- Str();
        TextsGoOn(ts, left, here, t, Rest());
        ts := ts + [t];
        left := left - 1;
        more := ParseTexts(left, Rest());
      }
      TextsEnd(ts, Rest());
      return Ok(ts);
    }

    /** The OID and the name of an enum, composite or domain type. */
    method Header() returns (r: Result<(u32, Utf8), DecodeError>)
      requires Valid()
      modifies this`pos
      ensures Valid() && old(pos) <= pos && Reads(r, ParseHeader(old(Rest())), Rest())
    {
      PowerValues();
      var oid :- Uint(4);
      var name :- Str();
      return Ok((oid, name));
    }

    method OptU32() returns (r: Result<Option<u32>, DecodeError>)
      requires Valid()
      modifies this`pos
      ensures Valid() && old(pos) <= pos && Reads(r, ParseOptU32(old(Rest())), Rest())
    {
      PowerValues();
      var v :- Opt();
      OptCanonical(old(Rest()));
      return Ok(match v case None => None case Some(n) => Some(n));
    }

    method OptI32() returns (r: Result<Option<i32>, DecodeError>)
      requires Valid()
      modifies this`pos
      ensures Valid() && old(pos) <= pos && Reads(r, ParseOptI32(old(Rest())), Rest())
    {
      PowerValues();
      var v :- Opt();
      OptCanonical(old(Rest()));
      return Ok(match v case None => None case Some(n) => Some(Signed(n, 4)));
    }

    /** Reads a data type of any nesting depth; what is left of the bytes bounds the recursion. */
    method DecodeDataType() returns (r: Result<DataType, DecodeError>)
      requires Valid()
      modifies this`pos
      ensures Valid() && old(pos) <= pos && Reads(r, ParseType(old(Rest())), Rest())
      decreases Remaining(), 0
    {
      var b :- Take(1);
      assert old(Rest())[..1][0] == old(Rest())[0];
      match TagAt(b[0] as int)
      case None =>
        return Err(InvalidTag(b[0]));
      case Some(tag) =>
        r := DecodeBody(tag);
    }

    method DecodeBody(tag: Tag) returns (r: Result<DataType, DecodeError>)
      requires Valid()
      modifies this`pos
      ensures Valid() && old(pos) <= pos && Reads(r, ParseBody(tag, old(Rest())), Rest())
      decreases Remaining(), 3
    {
      match tag
      case ScalarTag(k) =>
        return Ok(Scalar(k));
      case SizedTag(k) =>
        var size :- OptU32();
        return Ok(Sized(k, size));
      case DecimalTag =>
        var precision :- OptU32();
        var scale :- OptI32();
        return Ok(DataType.Decimal(precision, scale));
      case EnumTag => r := DecodeEnum();
      case CompositeTag => r := DecodeComposite();
      case DomainTag => r := DecodeDomain();
      case RangeTag => r := DecodeRange();
      case GeometryTag => r := DecodeGeometry();
      case ArrayTag =>
        var inner :- DecodeDataType();
        return Ok(Array(inner));
    }

    method DecodeRange() returns (r: Result<DataType, DecodeError>)
      requires Valid()
      modifies this`pos
      ensures Valid() && old(pos) <= pos && Reads(r, ParseRange(old(Rest())), Rest())
    {
      var b :- Take(1);
      assert old(Rest())[..1][0] == old(Rest())[0];
      match RangeAt(b[0] as int)
      case None => return Err(InvalidTag(b[0]));
      case Some(range) => return Ok(Range(range));
    }

    method DecodeGeometry() returns (r: Result<DataType, DecodeError>)
      requires Valid()
      modifies this`pos
      ensures Valid() && old(pos) <= pos && Reads(r, ParseGeometry(old(Rest())), Rest())
    {
      var b :- Take(1);
      assert old(Rest())[..1][0] == old(Rest())[0];
      match GeometryAt(b[0] as int)
      case None => return Err(InvalidTag(b[0]));
      case Some(geometry) => return Ok(Geometry(geometry));
    }

    method DecodeEnum() returns (r: Result<DataType, DecodeError>)
      requires Valid()
      modifies this`pos
      ensures Valid() && old(pos) <= pos && Reads(r, ParseEnum(old(Rest())), Rest())
    {
      var header :- Header();
      var count :- Count(4);
      var labels :- Texts(count);
      return Ok(Enum(header.0, header.1, labels));
    }

    method DecodeComposite() returns (r: Result<DataType, DecodeError>)
      requires Valid()
      modifies this`pos
      ensures Valid() && old(pos) <= pos && Reads(r, ParseComposite(old(Rest())), Rest())
      decreases Remaining(), 2
    {
      var header :- Header();
      var count :- Count(5);
      var fields :- Fields(count);
      return Ok(Composite(header.0, header.1, fields));
    }

    method DecodeDomain() returns (r: Result<DataType, DecodeError>)
      requires Valid()
      modifies this`pos
      ensures Valid() && old(pos) <= pos && Reads(r, ParseDomain(old(Rest())), Rest())
      decreases Remaining(), 2
    {
      var header :- Header();
      var notNull :- Flag();
      var baseType :- DecodeDataType();
      return Ok(Domain(header.0, header.1, baseType, notNull));
    }

    method OneField() returns (r: Result<TypeField, DecodeError>)
      requires Valid()
      modifies this`pos
      ensures Valid() && old(pos) <= pos && Reads(r, ParseField(old(Rest())), Rest())
      decreases Remaining(), 1
    {
      var name :- Str();
      var ty :- DecodeDataType();
      return Ok(TypeField(name, ty));
    }

    method Fields(n: nat) returns (r: Result<seq<TypeField>, DecodeError>)
      requires Valid()
      modifies this`pos
      ensures Valid() && old(pos) <= pos && Reads(r, ParseFields(n, old(Rest())), Rest())
      decreases Remaining(), 2
    {
      var fields: seq<TypeField> := [];
      ghost var left, goal := n, ParseFields(n, Rest());
      ghost var more := goal;
      AfterNothing(goal);
      for i := 0 to n
        invariant Valid() && old(pos) <= pos && Remaining() <= old(Remaining()) && left == n - i
        invariant After(fields, more) == goal && more == ParseFields(left, Rest())
      {
        ghost var here := Rest();
        FieldsFail(fields, left, here);
        var f :- OneField();
        FieldsGoOn(fields, left, here, f, Rest());
        fields := fields + [f];
        left := left - 1;
        more := ParseFields(left, Rest());
      }
      FieldsEnd(fields, Rest());
      return Ok(fields);
    }
  }

  // ----- Writing -----

  lemma {:induction false} TextsSnoc(ts: seq<Utf8>, t: Utf8)
    ensures TextsOnto(ts + [t], []) == TextsOnto(ts, []) + TextOnto(t, [])
  {
    if ts == [] {
      assert [t][1..] == [];
    } else {
      assert (ts + [t])[1..] == ts[1..] + [t];
      TextsSnoc(ts[1..], t);
      TextAppends(ts[0], TextsOnto(ts[1..], []), TextOnto(t, []));
    }
  }

  lemma {:induction false} FieldsSnoc(fields: seq<TypeField>, f: TypeField)
    requires PersistableFields(fields) && ShortText(f.name) && Persistable(f.dataType)
    ensures PersistableFields(fields + [f])
    ensures FieldsOnto(fields + [f], []) == FieldsOnto(fields, []) + TextOnto(f.name, TypeOnto(f.dataType, []))
  {
    var one := TextOnto(f.name, TypeOnto(f.dataType, []));
    if fields == [] {
      assert [f][1..] == [];
    } else {
      assert (fields + [f])[1..] == fields[1..] + [f];
      FieldsSnoc(fields[1..], f);
      TypeAppends(fields[0].dataType, FieldsOnto(fields[1..], []), one);
      TextAppends(fields[0].name, TypeOnto(fields[0].dataType, FieldsOnto(fields[1..], [])), one);
    }
  }

  lemma WrittenTextsGrow(before: Bytes, ts: seq<Utf8>, i: nat)
    requires i < |ts|
    ensures before + TextsOnto(ts[..i + 1], []) == before + TextsOnto(ts[..i], []) + TextOnto(ts[i], [])
  {
    TextsSnoc(ts[..i], ts[i]);
    assert ts[..i + 1] == ts[..i] + [ts[i]];
    Joined(before, TextsOnto(ts[..i], []), TextOnto(ts[i], []));
  }

  lemma WrittenFieldsGrow(before: Bytes, fields: seq<TypeField>, i: nat)
    requires i < |fields| && PersistableFields(fields[..i])
    requires ShortText(fields[i].name) && Persistable(fields[i].dataType)
    ensures PersistableFields(fields[..i + 1])
    ensures before + FieldsOnto(fields[..i + 1], []) ==
            before + FieldsOnto(fields[..i], []) + TextOnto(fields[i].name, TypeOnto(fields[i].dataType, []))
  {
    FieldsSnoc(fields[..i], fields[i]);
    assert fields[..i + 1] == fields[..i] + [fields[i]];
    Joined(before, FieldsOnto(fields[..i], []), TextOnto(fields[i].name, TypeOnto(fields[i].dataType, [])));
  }

  lemma {:induction false} FieldsFaultAt(fields: seq<TypeField>, i: nat)
    requires i < |fields| && PersistableFields(fields[..i])
    requires !ShortText(fields[i].name) || !Persistable(fields[i].dataType)
    ensures FieldsFault(fields) ==
            if !ShortText(fields[i].name) then Some(LengthOverflow) else TypeFault(fields[i].dataType)
  {
    FaultFreeIff(fields[0].dataType);
    if i > 0 {
      assert fields[..i][0] == fields[0];
      assert fields[1..][..i - 1] == fields[..i][1..];
      FieldsFaultAt(fields[1..], i - 1);
    }
  }

  lemma TextSplits(t: Utf8)
    ensures TextOnto(t, []) == UintOnto(|t|, 4, []) + t
  {
    assert t + [] == t;
  }

  lemma PresentSplits(n: nat)
    ensures OptOnto(Some(n), []) == FlagOnto(true, []) + UintOnto(n, 4, [])
  {
  }

  lemma DecimalSplits(p: Option<nat>, s: Option<nat>)
    ensures OptOnto(p, OptOnto(s, [])) == OptOnto(p, []) + OptOnto(s, [])
  {
    OptAppends(p, [], OptOnto(s, []));
    assert [] + OptOnto(s, []) == OptOnto(s, []);
  }

  lemma HeaderSplits(oid: u32, name: Utf8, tail: Bytes)
    ensures HeaderOnto(oid, name, tail) == HeaderOnto(oid, name, []) + tail
    ensures HeaderOnto(oid, name, []) == UintOnto(oid, 4, []) + TextOnto(name, [])
  {
    HeaderAppends(oid, name, [], tail);
    assert [] + tail == tail;
  }

  lemma FlagSplits(v: bool, tail: Bytes)
    ensures FlagOnto(v, tail) == FlagOnto(v, []) + tail
  {
  }

  lemma CountSplits(n: nat, tail: Bytes)
    ensures UintOnto(n, 4, tail) == UintOnto(n, 4, []) + tail
  {
  }

  lemma FieldSplits(f: TypeField)
    requires Persistable(f.dataType)
    ensures TextOnto(f.name, TypeOnto(f.dataType, [])) == TextOnto(f.name, []) + TypeOnto(f.dataType, [])
  {
    TextJoins(f.name, TypeOnto(f.dataType, []));
  }

  lemma TextJoins(t: Utf8, s: Bytes)
    ensures TextOnto(t, s) == TextOnto(t, []) + s
  {
    TextAppends(t, [], s);
    assert [] + s == s;
  }

  /** A byte buffer that only grows. */
  class Writer {
    var out: Bytes

    constructor ()
      ensures out == []
    {
      out := [];
    }

    method Put(b: Bytes)
      modifies this
      ensures out == old(out) + b
    {
      out := out + b;
    }

    method Uint(n: nat, w: nat)
      modifies this
      ensures out == old(out) + UintOnto(n, w, [])
    {
      assert UintOnto(n, w, []) == ToLE(n, w);
      Put(ToLE(n, w));
    }

    method Flag(v: bool)
      modifies this
      ensures out == old(out) + FlagOnto(v, [])
    {
      var b: Bytes := [(if v then 1 else 0) as char];
      assert FlagOnto(v, []) == b;
      Put(b);
    }

    method Code(code: int)
      requires 0 <= code < 256
      modifies this
      ensures out == old(out) + CodeOnto(code, [])
    {
      assert CodeOnto(code, []) == [code as char];
      Put([code as char]);
    }

    method Str(t: Utf8) returns (r: Result<(), EncodeError>)
      modifies this
      ensures r == if ShortText(t) then Ok(()) else Err(LengthOverflow)
      ensures r.Ok? ==> out == old(out) + TextOnto(t, [])
    {
      if |t| > U32_MAX {
        return Err(LengthOverflow);
      }
      TextSplits(t);
      Joined(out, UintOnto(|t|, 4, []), t);
      Uint(|t|, 4);
      Put(t);
      return Ok(());
    }

    method Opt(v: Option<nat>)
      modifies this
      ensures out == old(out) + OptOnto(v, [])
    {
      match v
      case None => Flag(false);
      case Some(n) =>
        PresentSplits(n);
        Joined(out, FlagOnto(true, []), UintOnto(n, 4, []));
        Flag(true);
        Uint(n, 4);
    }

    method Texts(ts: seq<Utf8>) returns (r: Result<(), EncodeError>)
      modifies this
      ensures r == if forall i :: 0 <= i < |ts| ==> ShortText(ts[i]) then Ok(()) else Err(LengthOverflow)
      ensures r.Ok? ==> out == old(out) + TextsOnto(ts, [])
    {
      assert out == out + TextsOnto([], []);
      for i := 0 to |ts|
        invariant forall j :: 0 <= j < i ==> ShortText(ts[j])
        invariant out == old(out) + TextsOnto(ts[..i], [])
      {
        WrittenTextsGrow(old(out), ts, i);
        var _ :- Str(ts[i]);
      }
      assert ts[..|ts|] == ts;
      return Ok(());
    }

    method Header(oid: u32, name: Utf8) returns (r: Result<(), EncodeError>)
      modifies this
      ensures r == if ShortText(name) then Ok(()) else Err(LengthOverflow)
      ensures r.Ok? ==> out == old(out) + HeaderOnto(oid, name, [])
    {
      HeaderSplits(oid, name, []);
      Joined(out, UintOnto(oid, 4, []), TextOnto(name, []));
      Uint(oid, 4);
      var _ :- Str(name);
      return Ok(());
    }

    /** The optional precision and scale of a decimal type. */
    method OptPair(first: Option<nat>, second: Option<nat>)
      modifies this
      ensures out == old(out) + OptOnto(first, OptOnto(second, []))
    {
      DecimalSplits(first, second);
      Joined(out, OptOnto(first, []), OptOnto(second, []));
      Opt(first);
      Opt(second);
    }

    /** Appends the encoding of a type, or reports the first thing that cannot be written. */
    method EncodeDataType(ty: DataType) returns (r: Result<(), EncodeError>)
      modifies this
      ensures if Persistable(ty) then r.Ok? && out == old(out) + TypeOnto(ty, [])
              else r.Err? && TypeFault(ty) == Some(r.error)
      decreases ty, 1
    {
      FaultFreeIff(ty);
      if ty.Record? {
        return Err(UnsupportedType);
      }
      ghost var before := out;
      Code(TagCode(TagOf(ty)));
      var _ :- EncodeBody(ty);
      Joined(before, CodeOnto(TagCode(TagOf(ty)), []), BodyOnto(ty, []));
      assert TypeOnto(ty, []) == CodeOnto(TagCode(TagOf(ty)), []) + BodyOnto(ty, []);
      return Ok(());
    }

    method EncodeBody(ty: DataType) returns (r: Result<(), EncodeError>)
      requires !ty.Record?
      modifies this
      ensures if Persistable(ty) then r.Ok? && out == old(out) + BodyOnto(ty, [])
              else r.Err? && TypeFault(ty) == Some(r.error)
      decreases ty, 0
    {
      FaultFreeIff(ty);
      match ty
      case Scalar(_) =>
        assert out + [] == out;
        return Ok(());
      case Sized(_, size) =>
        Opt(AsNat(size));
        return Ok(());
      case Decimal(precision, scale) =>
        OptPair(AsNat(precision), AsUnsigned(scale));
        return Ok(());
      case Enum(oid, name, labels) => r := EncodeEnum(oid, name, labels);
      case Composite(oid, name, fields) => r := EncodeComposite(oid, name, fields);
      case Domain(oid, name, baseType, notNull) => r := EncodeDomain(oid, name, baseType, notNull);
      case Range(range) =>
        Code(RangeCode(range));
        return Ok(());
      case Geometry(geometry) =>
        Code(GeometryCode(geometry));
        return Ok(());
      case Array(inner) => r := EncodeDataType(inner);
    }

    /** The header and the count of a list of labels or fields. */
    method CountedHeader(oid: u32, name: Utf8, n: nat) returns (r: Result<(), EncodeError>)
      modifies this
      ensures r == if ShortText(name) && n <= U32_MAX then Ok(()) else Err(LengthOverflow)
      ensures r.Ok? ==> out == old(out) + HeaderOnto(oid, name, UintOnto(n, 4, []))
    {
      HeaderSplits(oid, name, UintOnto(n, 4, []));
      Joined(out, HeaderOnto(oid, name, []), UintOnto(n, 4, []));
      var _ :- Header(oid, name);
      if n > U32_MAX {
        return Err(LengthOverflow);
      }
      Uint(n, 4);
      return Ok(());
    }

    method EncodeEnum(oid: u32, name: Utf8, labels: seq<Utf8>) returns (r: Result<(), EncodeError>)
      modifies this
      ensures r == if ShortText(name) && ShortTexts(labels) then Ok(()) else Err(LengthOverflow)
      ensures r.Ok? ==> out == old(out) + HeaderOnto(oid, name, UintOnto(|labels|, 4, TextsOnto(labels, [])))
    {
      CountedSplits(oid, name, |labels|, TextsOnto(labels, []));
      Joined(out, HeaderOnto(oid, name, UintOnto(|labels|, 4, [])), TextsOnto(labels, []));
      var _ :- CountedHeader(oid, name, |labels|);
      var _ :- Texts(labels);
      return Ok(());
    }

    method EncodeDomain(oid: u32, name: Utf8, baseType: DataType, notNull: bool) returns (r: Result<(), EncodeError>)
      modifies this
      ensures if ShortText(name) && Persistable(baseType)
              then r.Ok? && out == old(out) + HeaderOnto(oid, name, FlagOnto(notNull, TypeOnto(baseType, [])))
              else r.Err? && Some(r.error) == if ShortText(name) then TypeFault(baseType) else Some(LengthOverflow)
      decreases baseType, 2
    {
      FaultFreeIff(baseType);
      ghost var before := out;
      var _ :- Header(oid, name);
      Flag(notNull);
      ghost var head := HeaderOnto(oid, name, FlagOnto(notNull, []));
      HeaderSplits(oid, name, FlagOnto(notNull, []));
      Joined(before, HeaderOnto(oid, name, []), FlagOnto(notNull, []));
      var _ :- EncodeDataType(baseType);
      Joined(before, head, TypeOnto(baseType, []));
      DomainSplits(oid, name, notNull, TypeOnto(baseType, []));
      return Ok(());
    }

    method EncodeComposite(oid: u32, name: Utf8, fields: seq<TypeField>) returns (r: Result<(), EncodeError>)
      modifies this
      ensures if ShortText(name) && |fields| <= U32_MAX && PersistableFields(fields)
              then r.Ok? && out == old(out) + HeaderOnto(oid, name, UintOnto(|fields|, 4, FieldsOnto(fields, [])))
              else
                && r.Err?
                && Some(r.error) ==
                   if ShortText(name) && |fields| <= U32_MAX then FieldsFault(fields) else Some(LengthOverflow)
      decreases fields, 3
    {
      ghost var before := out;
      var _ :- CountedHeader(oid, name, |fields|);
      var _ :- Fields(fields);
      Joined(before, HeaderOnto(oid, name, UintOnto(|fields|, 4, [])), FieldsOnto(fields, []));
      CountedSplits(oid, name, |fields|, FieldsOnto(fields, []));
      return Ok(());
    }

    method OneField(f: TypeField) returns (r: Result<(), EncodeError>)
      modifies this
      ensures if ShortText(f.name) && Persistable(f.dataType)
              then r.Ok? && out == old(out) + TextOnto(f.name, TypeOnto(f.dataType, []))
              else r.Err? && Some(r.error) == if ShortText(f.name) then TypeFault(f.dataType) else Some(LengthOverflow)
      decreases f, 2
    {
      FaultFreeIff(f.dataType);
      ghost var before := out;
      var _ :- Str(f.name);
      var _ :- EncodeDataType(f.dataType);
      Joined(before, TextOnto(f.name, []), TypeOnto(f.dataType, []));
      FieldSplits(f);
      return Ok(());
    }

    method Fields(fields: seq<TypeField>) returns (r: Result<(), EncodeError>)
      modifies this
      ensures if PersistableFields(fields) then r.Ok? && out == old(out) + FieldsOnto(fields, [])
              else r.Err? && FieldsFault(fields) == Some(r.error)
      decreases fields, 2
    {
      FieldsFaultFreeIff(fields);
      assert out == out + FieldsOnto([], []);
      for i := 0 to |fields|
        invariant PersistableFields(fields[..i])
        invariant out == old(out) + FieldsOnto(fields[..i], [])
      {
        var f := fields[i];
        if !ShortText(f.name) || !Persistable(f.dataType) {
          FieldsFaultAt(fields, i);
        } else {
          WrittenFieldsGrow(old(out), fields, i);
        }
        var _ :- OneField(f);
      }
      assert fields[..|fields|] == fields;
      return Ok(());
    }
  }

  lemma CountedSplits(oid: u32, name: Utf8, n: nat, items: Bytes)
    ensures HeaderOnto(oid, name, UintOnto(n, 4, items)) == HeaderOnto(oid, name, UintOnto(n, 4, [])) + items
  {
    CountSplits(n, items);
    HeaderAppends(oid, name, UintOnto(n, 4, []), items);
  }

  lemma DomainSplits(oid: u32, name: Utf8, notNull: bool, base: Bytes)
    ensures HeaderOnto(oid, name, FlagOnto(notNull, base)) == HeaderOnto(oid, name, FlagOnto(notNull, [])) + base
  {
    FlagSplits(notNull, base);
    HeaderAppends(oid, name, FlagOnto(notNull, []), base);
  }
}
