/** Dropping repeated tool calls of one step: equal names and equal arguments, JSON key order aside. */
module ToolCallDedupe {
  import opened Conversation
  import opened Text

  /** A binary64 number by its bit pattern: what a JSON number decodes to. */
  type Float64 = bits: int | 0 <= bits < 0x1_0000_0000_0000_0000

  /** A decoded JSON value; an object is a map, so it has no key order. */
  datatype Json =
    | Null
    | Bool(b: bool)
    | Number(n: Float64)
    | String(s: string)
    | Array(elems: seq<Json>)
    | Object(fields: map<string, Json>)

  datatype Decoded = Malformed | Valid(value: Json)

  /** The standard library: the JSON decoder and encoder, and the hex form of SHA-256. */
  datatype Codec = Codec(decode: string -> Decoded, encode: Json -> string, hash: string -> string)

  /** Different decoded values are encoded differently. */
  predicate EncodesApart(c: Codec, a: string, b: string)
  {
    c.decode(a).Valid? && c.decode(b).Valid? && c.encode(c.decode(a).value) == c.encode(c.decode(b).value) ==>
      c.decode(a) == c.decode(b)
  }

  /** An encoding decodes. */
  predicate Reencodes(c: Codec, a: string)
  {
    c.decode(a).Valid? ==> c.decode(c.encode(c.decode(a).value)).Valid?
  }

  /** Digests do not collide and are hex. */
  predicate HashesApart(c: Codec, a: string, b: string)
  {
    c.hash(a) != "" && '\0' !in c.hash(a) && (c.hash(a) == c.hash(b) ==> a == b)
  }

  /** What is taken for granted of the three. `FaithfulCodec.Witness` is a codec of which it holds. */
  ghost predicate Faithful(c: Codec)
  {
    && (forall a, b :: EncodesApart(c, a, b))
    && (forall a :: Reencodes(c, a))
    && forall a, b :: HashesApart(c, a, b)
  }

  /** Rebuild a value with its object keys taken one by one; arrays are overwritten in place. */
  method Canonicalise(v: Json) returns (r: Json)
    ensures r == v
    decreases v
  {
    match v
    case Object(fields) =>
      var keys := fields.Keys;
      var out: map<string, Json> := map[];
      while keys != {}
        invariant keys <= fields.Keys && out.Keys == fields.Keys - keys
        invariant forall k :: k in out ==> out[k] == fields[k]
      {
        var k :| k in keys;
        var sub := Canonicalise(fields[k]);
        out := out[k := sub];
        keys := keys - {k};
      }
      assert out == fields;
      r := Object(out);
    case Array(elems) =>
      var x := elems;
      for i := 0 to |x|
        invariant |x| == |elems| && forall k :: 0 <= k < |x| ==> x[k] == elems[k]
      {
        var sub := Canonicalise(elems[i]);
        x := x[i := sub];
      }
      assert x == elems;
      r := Array(x);
    case _ =>
      r := v;
  }

  function ArgsKey(c: Codec, args: string): string
  {
    if args == "" then ""
    else
      match c.decode(args)
      case Malformed => c.hash(args)
      case Valid(v) => c.hash(c.encode(v))
  }

  function Key(c: Codec, call: ToolCall): string
  {
    call.name + "\0" + ArgsKey(c, call.args)
  }

  method CanonicalArgsKey(c: Codec, args: string) returns (key: string)
    ensures key == ArgsKey(c, args)
  {
    if |args| == 0 {
      return "";
    }
    match c.decode(args)
    case Malformed =>
      key := c.hash(args);
    case Valid(v) =>
      var canon := Canonicalise(v);
      key := c.hash(c.encode(canon));
  }

  // ---- when two calls share a key ----

  predicate SameArgs(c: Codec, a: string, b: string)
  {
    if a == "" || b == "" then a == b
    else if c.decode(a).Malformed? || c.decode(b).Malformed? then a == b
    else c.decode(a).value == c.decode(b).value
  }

  predicate SameCall(c: Codec, x: ToolCall, y: ToolCall)
  {
    x.name == y.name && SameArgs(c, x.args, y.args)
  }

  /** What is hashed: the encoding of the value, or the arguments as they are. */
  function Hashed(c: Codec, args: string): string
  {
    match c.decode(args)
    case Malformed => args
    case Valid(v) => c.encode(v)
  }

  lemma ArgsKeyShape(c: Codec, args: string)
    requires Faithful(c)
    ensures '\0' !in ArgsKey(c, args) && (ArgsKey(c, args) == "" <==> args == "")
  {
    assert HashesApart(c, Hashed(c, args), "");
  }

  lemma ArgsKeyIff(c: Codec, a: string, b: string)
    requires Faithful(c)
    ensures ArgsKey(c, a) == ArgsKey(c, b) <==> SameArgs(c, a, b)
  {
    ArgsKeyShape(c, a);
    ArgsKeyShape(c, b);
    assert HashesApart(c, Hashed(c, a), Hashed(c, b));
    assert EncodesApart(c, a, b) && Reencodes(c, a) && Reencodes(c, b);
  }

  /** Two calls share a key exactly when names match and arguments are both empty, both malformed and
      byte-equal, or both valid and decode to the same value. */
  lemma SameKeyIff(c: Codec, x: ToolCall, y: ToolCall)
    requires Faithful(c)
    ensures Key(c, x) == Key(c, y) <==> SameCall(c, x, y)
  {
    ArgsKeyIff(c, x.args, y.args);
    ArgsKeyShape(c, x.args);
    ArgsKeyShape(c, y.args);
    if Key(c, x) == Key(c, y) {
      SeparatorSplits('\0', x.name, ArgsKey(c, x.args), y.name, ArgsKey(c, y.args));
    }
  }

  // ---- the quotient ----

  predicate IsFirst(c: Codec, calls: seq<ToolCall>, i: nat)
    requires i < |calls|
  {
    forall j :: 0 <= j < i ==> !SameCall(c, calls[j], calls[i])
  }

  /** The first call of every class, in input order. */
  function FirstCalls(c: Codec, calls: seq<ToolCall>): (kept: seq<ToolCall>)
    ensures |kept| <= |calls|
    ensures forall k <- kept :: k in calls
    ensures calls != [] ==> kept != []
  {
    if calls == [] then []
    else
      var n := |calls| - 1;
      var rest := FirstCalls(c, calls[..n]);
      if IsFirst(c, calls, n) then rest + [calls[n]] else rest
  }

  ghost predicate Used(c: Codec, calls: seq<ToolCall>, n: nat, key: string)
    requires n <= |calls|
  {
    exists j :: 0 <= j < n && Key(c, calls[j]) == key
  }

  /** Every key seen so far is the key of an earlier call, and conversely. */
  ghost predicate Seen(c: Codec, calls: seq<ToolCall>, n: nat, seen: map<string, string>)
    requires n <= |calls|
  {
    forall key :: key in seen <==> Used(c, calls, n, key)
  }

  lemma SeenIffRepeated(c: Codec, calls: seq<ToolCall>, n: nat, seen: map<string, string>)
    requires Faithful(c) && n < |calls| && Seen(c, calls, n, seen)
    ensures Key(c, calls[n]) in seen <==> !IsFirst(c, calls, n)
  {
    forall j | 0 <= j < n ensures Key(c, calls[j]) == Key(c, calls[n]) <==> SameCall(c, calls[j], calls[n]) {
      SameKeyIff(c, calls[j], calls[n]);
    }
  }

  lemma FirstCallsNext(c: Codec, calls: seq<ToolCall>, n: nat)
    requires n < |calls|
    ensures IsFirst(c, calls, n) ==> FirstCalls(c, calls[..n + 1]) == FirstCalls(c, calls[..n]) + [calls[n]]
    ensures !IsFirst(c, calls, n) ==> FirstCalls(c, calls[..n + 1]) == FirstCalls(c, calls[..n])
  {
    assert calls[..n + 1][..n] == calls[..n];
    assert IsFirst(c, calls[..n + 1], n) <==> IsFirst(c, calls, n);
  }

  lemma FewCalls(c: Codec, calls: seq<ToolCall>)
    requires |calls| <= 1
    ensures FirstCalls(c, calls) == calls
  {
    if |calls| == 1 {
      assert calls[..1] == calls;
      FirstCallsNext(c, calls, 0);
    }
  }

  lemma SeenNext(c: Codec, calls: seq<ToolCall>, n: nat, seen: map<string, string>, id: string)
    requires n < |calls| && Seen(c, calls, n, seen)
    ensures Seen(c, calls, n + 1, seen[Key(c, calls[n]) := id])
    ensures Key(c, calls[n]) in seen ==> Seen(c, calls, n + 1, seen)
  {
    var key0 := Key(c, calls[n]);
    forall key ensures (key in seen || key == key0) <==> Used(c, calls, n + 1, key) {
      if key == key0 { assert Key(c, calls[n]) == key; }
      if key in seen {
        var j :| 0 <= j < n && Key(c, calls[j]) == key;
        assert 0 <= j < n + 1;
      }
    }
  }

  /** One turn of the loop: a repeated call changes nothing, a new one is kept and remembered. */
  lemma DedupeStep(c: Codec, calls: seq<ToolCall>, n: nat, seen: map<string, string>, out: seq<ToolCall>, key: string)
    requires Faithful(c) && n < |calls| && Seen(c, calls, n, seen) && out == FirstCalls(c, calls[..n])
    requires key == Key(c, calls[n])
    ensures key in seen ==> Seen(c, calls, n + 1, seen) && out == FirstCalls(c, calls[..n + 1])
    ensures key !in seen ==>
      Seen(c, calls, n + 1, seen[key := calls[n].id]) && out + [calls[n]] == FirstCalls(c, calls[..n + 1])
  {
    FirstCallsNext(c, calls, n);
    SeenIffRepeated(c, calls, n, seen);
    SeenNext(c, calls, n, seen, calls[n].id);
  }

  method DedupeToolCalls(c: Codec, calls: seq<ToolCall>) returns (out: seq<ToolCall>)
    requires Faithful(c)
    ensures out == FirstCalls(c, calls)
  {
    assert calls[..|calls|] == calls;
    if |calls| <= 1 {
      FewCalls(c, calls);
      return calls;
    }
    var seen: map<string, string> := map[];
    out := [];
    for i := 0 to |calls|
      invariant out == FirstCalls(c, calls[..i]) && Seen(c, calls, i, seen)
    {
      var tc := calls[i];
      var argsKey := CanonicalArgsKey(c, tc.args);
      var key := tc.name + "\0" + argsKey;
      DedupeStep(c, calls, i, seen, out, key);
      if key in seen {
        continue;
      }
      seen := seen[key := tc.id];
      out := out + [tc];
    }
  }

  /** No two kept calls are the same call. */
  ghost predicate AllFirst(c: Codec, calls: seq<ToolCall>)
  {
    forall i :: 0 <= i < |calls| ==> IsFirst(c, calls, i)
  }

  lemma {:induction false} KeptDistinct(c: Codec, calls: seq<ToolCall>)
    ensures AllFirst(c, FirstCalls(c, calls))
  {
    if calls != [] {
      var n := |calls| - 1;
      KeptDistinct(c, calls[..n]);
      var rest, kept := FirstCalls(c, calls[..n]), FirstCalls(c, calls);
      forall i | 0 <= i < |kept| ensures IsFirst(c, kept, i) {
        if i < |rest| {
          assert IsFirst(c, rest, i);
        } else {
          forall j | 0 <= j < i ensures !SameCall(c, kept[j], kept[i]) {
            assert rest[j] in calls[..n];
          }
        }
      }
    }
  }

  /** Every call has its kept representative. */
  lemma {:induction false} EveryCallRepresented(c: Codec, calls: seq<ToolCall>, i: nat)
    requires i < |calls|
    ensures exists k :: k in FirstCalls(c, calls) && SameCall(c, k, calls[i])
    decreases |calls|, i
  {
    var n := |calls| - 1;
    if i < n {
      EveryCallRepresented(c, calls[..n], i);
    } else if IsFirst(c, calls, n) {
      assert calls[n] in FirstCalls(c, calls) && SameCall(c, calls[n], calls[n]);
    } else {
      var j :| 0 <= j < n && SameCall(c, calls[j], calls[n]);
      EveryCallRepresented(c, calls[..n], j);
      var k :| k in FirstCalls(c, calls[..n]) && SameCall(c, k, calls[..n][j]);
      assert SameCall(c, k, calls[n]);
    }
  }

  lemma {:induction false} AllFirstKept(c: Codec, calls: seq<ToolCall>)
    requires AllFirst(c, calls)
    ensures FirstCalls(c, calls) == calls
  {
    if calls != [] {
      var n := |calls| - 1;
      forall i | 0 <= i < n ensures IsFirst(c, calls[..n], i) {
        assert IsFirst(c, calls, i);
      }
      AllFirstKept(c, calls[..n]);
      assert IsFirst(c, calls, n);
    }
  }

  /** A second pass changes nothing. */
  lemma DedupeIdempotent(c: Codec, calls: seq<ToolCall>)
    ensures FirstCalls(c, FirstCalls(c, calls)) == FirstCalls(c, calls)
  {
    KeptDistinct(c, calls);
    AllFirstKept(c, FirstCalls(c, calls));
  }
}
