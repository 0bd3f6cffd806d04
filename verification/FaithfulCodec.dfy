/** A codec that meets everything asked of the JSON library and the hash: a self-delimiting encoding of
    every value, its inverse, and an injective digest. */
module FaithfulCodec {
  import opened ToolCallDedupe
  import Decimal

  /** A string that ends where it says. */
  function Quoted(s: string): string
  {
    if s == "" then "." else "'" + [s[0]] + Quoted(s[1..])
  }

  /** The elements of a set, in a fixed order. */
  ghost function Listed(keys: set<string>): (ks: seq<string>)
    ensures forall k :: k in ks <==> k in keys
  {
    if keys == {} then []
    else
      var k :| k in keys;
      Text.Insert(k, Listed(keys - {k}))
  }

  ghost function Encode(v: Json): string
    decreases v, 0
  {
    match v
    case Null => "n"
    case Bool(b) => if b then "t" else "f"
    case Number(n) => "#" + Quoted(Decimal.Print(n))
    case String(s) => "s" + Quoted(s)
    case Array(elems) => "[" + EncodeElems(v, 0)
    case Object(fields) => "{" + EncodeFields(v, Listed(fields.Keys))
  }

  ghost function EncodeElems(v: Json, i: nat): string
    requires v.Array? && i <= |v.elems|
    decreases v, 0, |v.elems| - i
  {
    if i == |v.elems| then "]" else "," + Encode(v.elems[i]) + EncodeElems(v, i + 1)
  }

  ghost function EncodeFields(v: Json, keys: seq<string>): string
    requires v.Object? && forall k <- keys :: k in v.fields
    decreases v, 0, |keys|
  {
    if keys == [] then "}" else "," + Quoted(keys[0]) + Encode(v.fields[keys[0]]) + EncodeFields(v, keys[1..])
  }

  // ---- different values, different encodings ----

  lemma Peel(c: string, x: string, d: string, y: string)
    requires |c| == |d| == 1 && c + x == d + y
    ensures c == d && x == y
  {
    assert (c + x)[0] == c[0] && (d + y)[0] == d[0];
    assert (c + x)[1..] == x && (d + y)[1..] == y;
  }

  lemma Regroup(c: string, x: string, y: string, s: string)
    ensures c + x + y + s == c + (x + (y + s))
    ensures c + x + s == c + (x + s)
  {
  }

  lemma {:induction false} QuotedInjective(a: string, b: string, s: string, t: string)
    requires Quoted(a) + s == Quoted(b) + t
    ensures a == b && s == t
  {
    assert (Quoted(a) + s)[0] == Quoted(a)[0] && (Quoted(b) + t)[0] == Quoted(b)[0];
    if a == "" {
      Peel(".", s, ".", t);
    } else {
      Regroup("'", [a[0]], Quoted(a[1..]), s);
      Regroup("'", [b[0]], Quoted(b[1..]), t);
      Peel("'", [a[0]] + (Quoted(a[1..]) + s), "'", [b[0]] + (Quoted(b[1..]) + t));
      Peel([a[0]], Quoted(a[1..]) + s, [b[0]], Quoted(b[1..]) + t);
      QuotedInjective(a[1..], b[1..], s, t);
      assert a == [a[0]] + a[1..] && b == [b[0]] + b[1..];
    }
  }

  /** The first character says which kind of value follows. */
  function Tag(v: Json): string
  {
    match v
    case Null => "n"
    case Bool(b) => if b then "t" else "f"
    case Number(_) => "#"
    case String(_) => "s"
    case Array(_) => "["
    case Object(_) => "{"
  }

  ghost function Rest(v: Json): string
  {
    match v
    case Null => ""
    case Bool(_) => ""
    case Number(n) => Quoted(Decimal.Print(n))
    case String(s) => Quoted(s)
    case Array(_) => EncodeElems(v, 0)
    case Object(fields) => EncodeFields(v, Listed(fields.Keys))
  }

  lemma SameTag(v: Json, w: Json, s: string, t: string)
    requires Encode(v) + s == Encode(w) + t
    ensures Tag(v) == Tag(w) && Rest(v) + s == Rest(w) + t
  {
    assert Encode(v) == Tag(v) + Rest(v) && Encode(w) == Tag(w) + Rest(w);
    Regroup(Tag(v), Rest(v), "", s);
    Regroup(Tag(w), Rest(w), "", t);
    Peel(Tag(v), Rest(v) + s, Tag(w), Rest(w) + t);
  }

  lemma {:induction false} EncodeInjective(v: Json, w: Json, s: string, t: string)
    requires Encode(v) + s == Encode(w) + t
    ensures v == w && s == t
    decreases v, 0
  {
    SameTag(v, w, s, t);
    match v
    case Null => assert "" + s == s && "" + t == t;
    case Bool(_) => assert "" + s == s && "" + t == t;
    case Number(n) =>
      QuotedInjective(Decimal.Print(n), Decimal.Print(w.n), s, t);
      Decimal.ParsePrint(n);
      Decimal.ParsePrint(w.n);
    case String(x) => QuotedInjective(x, w.s, s, t);
    case Array(elems) =>
      ElemsInjective(v, 0, w, 0, s, t);
      assert elems[0..] == elems && w.elems[0..] == w.elems;
    case Object(fields) =>
      FieldsInjective(v, Listed(fields.Keys), w, Listed(w.fields.Keys), s, t);
      assert fields.Keys == w.fields.Keys;
      assert fields == w.fields;
  }

  lemma {:induction false} ElemsInjective(v: Json, i: nat, w: Json, j: nat, s: string, t: string)
    requires v.Array? && w.Array? && i <= |v.elems| && j <= |w.elems|
    requires EncodeElems(v, i) + s == EncodeElems(w, j) + t
    ensures v.elems[i..] == w.elems[j..] && s == t
    decreases v, 0, |v.elems| - i
  {
    assert (EncodeElems(v, i) + s)[0] == EncodeElems(v, i)[0] && (EncodeElems(w, j) + t)[0] == EncodeElems(w, j)[0];
    if i == |v.elems| {
      Peel("]", s, "]", t);
    } else {
      var x, y := v.elems[i], w.elems[j];
      Regroup(",", Encode(x), EncodeElems(v, i + 1), s);
      Regroup(",", Encode(y), EncodeElems(w, j + 1), t);
      Peel(",", Encode(x) + (EncodeElems(v, i + 1) + s), ",", Encode(y) + (EncodeElems(w, j + 1) + t));
      EncodeInjective(x, y, EncodeElems(v, i + 1) + s, EncodeElems(w, j + 1) + t);
      ElemsInjective(v, i + 1, w, j + 1, s, t);
      assert v.elems[i..] == [x] + v.elems[i + 1..] && w.elems[j..] == [y] + w.elems[j + 1..];
    }
  }

  lemma {:induction false} FieldsInjective(v: Json, ks: seq<string>, w: Json, ls: seq<string>, s: string, t: string)
    requires v.Object? && w.Object? && (forall k <- ks :: k in v.fields) && forall k <- ls :: k in w.fields
    requires EncodeFields(v, ks) + s == EncodeFields(w, ls) + t
    ensures ks == ls && s == t && forall k <- ks :: v.fields[k] == w.fields[k]
    decreases v, 0, |ks|
  {
    assert (EncodeFields(v, ks) + s)[0] == EncodeFields(v, ks)[0]
      && (EncodeFields(w, ls) + t)[0] == EncodeFields(w, ls)[0];
    if ks == [] {
      Peel("}", s, "}", t);
    } else {
      var x, y, more, others := v.fields[ks[0]], w.fields[ls[0]], EncodeFields(v, ks[1..]), EncodeFields(w, ls[1..]);
      FieldHead(Quoted(ks[0]), Encode(x), more, s);
      FieldHead(Quoted(ls[0]), Encode(y), others, t);
      Peel(",", Quoted(ks[0]) + (Encode(x) + (more + s)), ",", Quoted(ls[0]) + (Encode(y) + (others + t)));
      QuotedInjective(ks[0], ls[0], Encode(x) + (more + s), Encode(y) + (others + t));
      EncodeInjective(x, y, more + s, others + t);
      FieldsInjective(v, ks[1..], w, ls[1..], s, t);
      assert ks == [ks[0]] + ks[1..] && ls == [ls[0]] + ls[1..];
    }
  }

  lemma FieldHead(key: string, value: string, more: string, s: string)
    ensures "," + key + value + more + s == "," + (key + (value + (more + s)))
  {
  }

  // ---- the witness ----

  ghost function Decode(s: string): Decoded
  {
    if v :| Encode(v) == s then Valid(v) else Malformed
  }

  lemma DecodeEncode(v: Json)
    ensures Decode(Encode(v)) == Valid(v)
  {
    var w := Decode(Encode(v)).value;
    assert Encode(w) + "" == Encode(v) + "";
    EncodeInjective(w, v, "", "");
  }

  /** A digest without NUL. */
  function Digest(s: string): (d: string)
    ensures d != "" && '\0' !in d
  {
    if s == "" then "."
    else if s[0] == '\0' then "0" + Digest(s[1..])
    else "1" + [s[0]] + Digest(s[1..])
  }

  lemma {:induction false} DigestInjective(a: string, b: string)
    requires Digest(a) == Digest(b)
    ensures a == b
  {
    assert Digest(a)[0] == Digest(b)[0];
    if a != "" {
      if a[0] == '\0' {
        Peel("0", Digest(a[1..]), "0", Digest(b[1..]));
      } else {
        assert Digest(a)[1] == a[0] && Digest(b)[1] == b[0];
        assert Digest(a)[2..] == Digest(a[1..]) && Digest(b)[2..] == Digest(b[1..]);
      }
      DigestInjective(a[1..], b[1..]);
      assert a == [a[0]] + a[1..] && b == [b[0]] + b[1..];
    }
  }

  /** What is asked of the libraries can be met, by a codec that reads every value back. */
  lemma Witness() returns (c: Codec)
    ensures Faithful(c) && forall v :: c.decode(c.encode(v)) == Valid(v)
  {
    c := Codec(Decode, Encode, Digest);
    forall v ensures c.decode(c.encode(v)) == Valid(v) { DecodeEncode(v); }
    forall a, b ensures HashesApart(c, a, b) {
      if Digest(a) == Digest(b) { DigestInjective(a, b); }
    }
    forall a ensures Reencodes(c, a) {
      if Decode(a).Valid? { DecodeEncode(Decode(a).value); }
    }
    forall a, b ensures EncodesApart(c, a, b) {
      if Decode(a).Valid? { DecodeEncode(Decode(a).value); }
      if Decode(b).Valid? { DecodeEncode(Decode(b).value); }
    }
  }
}
