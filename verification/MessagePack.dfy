/**
 The MessagePack validator: the recursive grammar of the format, and the
 iterative parser with its fixed stack that must agree with it.
 */
module MessagePack {
  import opened Bytes

  const MAX_DEPTH: nat := 64

  // ---------------------------------------------------------------- grammar

  /** One value of the "Formats" section of the MessagePack specification. A map's
      elements are its keys and values in wire order. */
  datatype Value =
    | Fixed(code: Byte, body: seq<Byte>)
    | Counted(code: Byte, body: seq<Byte>)
    | Extension(code: Byte, kind: Byte, body: seq<Byte>)
    | Array(code: Byte, elems: seq<Value>)
    | Map(code: Byte, elems: seq<Value>)

  /** Body length of the formats that carry no length field. */
  function FixedBody(code: Byte): (size: Option<nat>)
  {
    if code <= 0x7f || code >= 0xe0 then Some(0)                  // fixint
    else if 0xa0 <= code <= 0xbf then Some(code - 0xa0)           // fixstr
    else if code in {0xc0, 0xc2, 0xc3} then Some(0)               // nil, false, true
    else if code in {0xcc, 0xd0} then Some(1)                     // uint 8, int 8
    else if code in {0xcd, 0xd1} then Some(2)                     // uint 16, int 16
    else if code in {0xce, 0xd2, 0xca} then Some(4)               // uint 32, int 32, float 32
    else if code in {0xcf, 0xd3, 0xcb} then Some(8)               // uint 64, int 64, float 64
    else if code == 0xd4 then Some(2)                             // fixext: type and body
    else if code == 0xd5 then Some(3)
    else if code == 0xd6 then Some(5)
    else if code == 0xd7 then Some(9)
    else if code == 0xd8 then Some(17)
    else None
  }

  /** Width of the length field of bin and str, 0 for other codes. */
  function CountedWidth(code: Byte): (width: nat)
  {
    if code in {0xc4, 0xd9} then 1 else if code in {0xc5, 0xda} then 2 else if code in {0xc6, 0xdb} then 4 else 0
  }

  /** Width of the length field of ext, 0 for other codes. */
  function ExtensionWidth(code: Byte): (width: nat)
  {
    if code == 0xc7 then 1 else if code == 0xc8 then 2 else if code == 0xc9 then 4 else 0
  }

  /** Width of the length field of an array; fixarray has none. */
  function ArrayWidth(code: Byte): (width: Option<nat>)
  {
    if 0x90 <= code <= 0x9f then Some(0) else if code == 0xdc then Some(2) else if code == 0xdd then Some(4) else None
  }

  /** Width of the length field of a map; fixmap has none. */
  function MapWidth(code: Byte): (width: Option<nat>)
  {
    if 0x80 <= code <= 0x8f then Some(0) else if code == 0xde then Some(2) else if code == 0xdf then Some(4) else None
  }

  predicate WellFormed(v: Value)
    decreases v, 1
  {
    match v
    case Fixed(code, body) => FixedBody(code) == Some(|body|)
    case Counted(code, body) => CountedWidth(code) > 0 && |body| < Pow256(CountedWidth(code))
    case Extension(code, _, body) => ExtensionWidth(code) > 0 && |body| < Pow256(ExtensionWidth(code))
    case Array(code, elems) =>
      && AllWellFormed(elems)
      && ArrayWidth(code).Some?
      && if ArrayWidth(code).value == 0 then |elems| == code - 0x90 else |elems| < Pow256(ArrayWidth(code).value)
    case Map(code, elems) =>
      && AllWellFormed(elems)
      && MapWidth(code).Some?
      && |elems| % 2 == 0
      && if MapWidth(code).value == 0 then |elems| / 2 == code - 0x80 else |elems| / 2 < Pow256(MapWidth(code).value)
  }

  predicate AllWellFormed(vs: seq<Value>)
    decreases vs, 0
  {
    vs == [] || (WellFormed(vs[0]) && AllWellFormed(vs[1..]))
  }

  function Encode(v: Value): (b: seq<Byte>)
    requires WellFormed(v)
    ensures |b| >= 1
    decreases v, 1
  {
    match v
    case Fixed(code, body) => [code] + body
    case Counted(code, body) => [code] + PutUint(|body|, CountedWidth(code)) + body
    case Extension(code, kind, body) => [code] + PutUint(|body|, ExtensionWidth(code)) + [kind] + body
    case Array(code, elems) => [code] + PutUint(|elems|, ArrayWidth(code).value) + EncodeAll(elems)
    case Map(code, elems) => [code] + PutUint(|elems| / 2, MapWidth(code).value) + EncodeAll(elems)
  }

  function EncodeAll(vs: seq<Value>): (b: seq<Byte>)
    requires AllWellFormed(vs)
    ensures |b| >= |vs|
    decreases vs, 0
  {
    if vs == [] then [] else Encode(vs[0]) + EncodeAll(vs[1..])
  }

  function Max(a: nat, b: nat): (m: nat) { if a >= b then a else b }

  /** Levels of array and map nesting; an empty container is one level. */
  function Depth(v: Value): (d: nat)
    decreases v, 1
  {
    match v
    case Array(_, elems) => 1 + AllDepth(elems)
    case Map(_, elems) => 1 + AllDepth(elems)
    case _ => 0
  }

  function AllDepth(vs: seq<Value>): (d: nat)
    decreases vs, 0
  {
    if vs == [] then 0 else Max(Depth(vs[0]), AllDepth(vs[1..]))
  }

  /** The language the validator is to accept: one value, nested at most 64 deep. */
  ghost predicate Acceptable(data: seq<Byte>)
  {
    exists v :: WellFormed(v) && Depth(v) <= 64 && Encode(v) == data
  }

  // ------------------------------------------------------- reading one header

  datatype Verdict = Valid | UnexpectedEOF | InvalidCode | TooDeep | TrailingData

  datatype Layout = Layout(size: nat, children: nat, width: nat, container: bool) | Unknown

  /** The switch on the code octet, for the codes it settles without a count. */
  function Classify(code: Byte): (l: Layout)
  {
    if code <= 0x7f || code >= 0xe0 then Layout(0, 0, 0, false)
    else if 0xa0 <= code <= 0xbf then Layout(code % 32, 0, 0, false)
    else if 0x90 <= code <= 0x9f then Layout(0, code % 16, 0, true)
    else if 0x80 <= code <= 0x8f then Layout(0, 2 * (code % 16), 0, true)
    else match code
      case 0xc0 => Layout(0, 0, 0, false) case 0xc2 => Layout(0, 0, 0, false) case 0xc3 => Layout(0, 0, 0, false)
      case 0xcc => Layout(1, 0, 0, false) case 0xd0 => Layout(1, 0, 0, false)
      case 0xcd => Layout(2, 0, 0, false) case 0xd1 => Layout(2, 0, 0, false)
      case 0xce => Layout(4, 0, 0, false) case 0xd2 => Layout(4, 0, 0, false) case 0xca => Layout(4, 0, 0, false)
      case 0xcf => Layout(8, 0, 0, false) case 0xd3 => Layout(8, 0, 0, false) case 0xcb => Layout(8, 0, 0, false)
      case _ =>
        if 0xd4 <= code <= 0xd8 then Layout(1 + Pow2(code - 0xd4), 0, 0, false)
        else if code in {0xd9, 0xc4, 0xc7} then Layout(0, 0, 1, false)
        else if code in {0xda, 0xc5, 0xc8, 0xdc, 0xde} then Layout(0, 0, 2, false)
        else if code in {0xdb, 0xc6, 0xc9, 0xdd, 0xdf} then Layout(0, 0, 4, false)
        else Unknown
  }

  function Pow2(n: nat): (p: nat) { if n == 0 then 1 else 2 * Pow2(n - 1) }

  /** What a length field adds to the layout of its code. */
  function WithCount(code: Byte, l: Layout, count: nat): (r: Layout)
    requires l.Layout?
  {
    if code in {0xdc, 0xdd} then l.(container := true, children := count)
    else if code in {0xde, 0xdf} then l.(container := true, children := 2 * count)
    else if code in {0xc7, 0xc8, 0xc9} then l.(size := count + 1)
    else l.(size := count)
  }

  /** The layout of a code once its length field, if it has one, is known. */
  function FullLayout(code: Byte, count: nat): (r: Layout)
    requires Classify(code).Layout?
    ensures r.Layout?
  {
    if Classify(code).width == 0 then Classify(code) else WithCount(code, Classify(code), count)
  }

  datatype Head = Bad(verdict: Verdict) | Good(rest: seq<Byte>, container: bool, children: nat)

  /** One pass of the loop body up to the depth test: read the header of a value,
      skip an atom's body, and hand back what follows. */
  function ReadHead(data: seq<Byte>): (h: Head)
    requires data != []
    ensures h.Good? ==> |h.rest| < |data| && h.children <= |h.rest| && (!h.container ==> h.children == 0)
  {
    var code, rest := data[0], data[1..];
    var l := Classify(code);
    if l.Unknown? then Bad(InvalidCode)
    else if |rest| < l.width then Bad(UnexpectedEOF)
    else
      var full := FullLayout(code, Uint(rest[..l.width]));
      var body := rest[l.width..];
      if full.size > |body| || full.children > |body| then Bad(UnexpectedEOF)
      else Good(body[full.size..], full.container, full.children)
  }

  // -------------------------------------------------- recursive-descent parser

  datatype Parse = Stop(verdict: Verdict) | Done(rest: seq<Byte>)

  /** Reads n values, each inside `depth` open containers. */
  function ParseAll(n: nat, data: seq<Byte>, depth: nat): (p: Parse)
    ensures p.Done? ==> |p.rest| + n <= |data|
    ensures p.Stop? ==> p.verdict in {UnexpectedEOF, InvalidCode, TooDeep}
    decreases |data|, n
  {
    if n == 0 then Done(data)
    else if data == [] then Stop(UnexpectedEOF)
    else match ReadHead(data)
      case Bad(v) => Stop(v)
      case Good(rest, container, children) =>
        if container && depth == MAX_DEPTH then Stop(TooDeep)
        else if children == 0 then ParseAll(n - 1, rest, depth)
        else match ParseAll(children, rest, depth + 1)
          case Stop(v) => Stop(v)
          case Done(after) => ParseAll(n - 1, after, depth)
  }

  /** Reads what a stack of unfinished containers still expects, innermost last. */
  function Unwind(stack: seq<nat>, data: seq<Byte>): (v: Verdict)
  {
    if stack == [] then (if data == [] then Valid else TrailingData)
    else match ParseAll(stack[|stack| - 1], data, |stack| - 1)
      case Stop(v) => v
      case Done(rest) => Unwind(stack[..|stack| - 1], rest)
  }

  function Validated(data: seq<Byte>): (v: Verdict)
  {
    Unwind([1], data)
  }

  // ------------------------------------------------------ the iterative parser

  ghost function Stack(remaining: array<uint64>, depth: nat): (s: seq<nat>)
    requires depth < remaining.Length
    reads remaining
  {
    seq(depth + 1, i requires 0 <= i <= depth reads remaining => remaining[i] as nat)
  }

  lemma UnwindStep(stack: seq<nat>, data: seq<Byte>)
    requires |stack| > 0 && stack[|stack| - 1] > 0 && data != []
    ensures var top := |stack| - 1;
      var left := stack[top := stack[top] - 1];
      match ReadHead(data)
      case Bad(v) => Unwind(stack, data) == v
      case Good(rest, container, children) =>
        if container && top == MAX_DEPTH then Unwind(stack, data) == TooDeep
        else if children == 0 then Unwind(stack, data) == Unwind(left, rest)
        else Unwind(stack, data) == Unwind(left + [children], rest)
  {
    hide ReadHead;
    var top := |stack| - 1;
    var left := stack[top := stack[top] - 1];
    assert left[..top] == stack[..top];
    match ReadHead(data)
    case Bad(v) =>
    case Good(rest, container, children) =>
      if children > 0 {
        assert (left + [children])[..top + 1] == left;
      }
  }

  lemma EmptyStack(data: seq<Byte>)
    ensures Unwind([], data) == if data == [] then Valid else TrailingData
  {
  }

  lemma UnwindPop(stack: seq<nat>, data: seq<Byte>)
    requires |stack| > 0
    ensures stack[|stack| - 1] == 0 ==> Unwind(stack, data) == Unwind(stack[..|stack| - 1], data)
    ensures stack[|stack| - 1] > 0 && data == [] ==> Unwind(stack, data) == UnexpectedEOF
  {
  }

  /** validateMessagePack: one loop over a fixed array of pending element counts. */
  method ValidateMessagePack(data: seq<Byte>) returns (verdict: Verdict)
    ensures verdict == Validated(data)
    ensures verdict == Valid <==> Acceptable(data)
  {
    hide ReadHead, Acceptable, ParseAll, Unwind;
    ValidatedIsExact(data);
    var remaining := new uint64[MAX_DEPTH + 1];
    remaining[0] := 1;
    var depth := 0;
    var rest := data;
    assert Stack(remaining, 0) == [1];
    while true
      invariant 0 <= depth <= MAX_DEPTH
      invariant Unwind(Stack(remaining, depth), rest) == Validated(data)
      decreases |rest|, depth
    {
      ghost var stack := Stack(remaining, depth);
      UnwindPop(stack, rest);
      if remaining[depth] == 0 {
        if depth == 0 {
          assert stack[..0] == [];
          EmptyStack(rest);
          return if |rest| != 0 then TrailingData else Valid;
        }
        assert stack[..depth] == Stack(remaining, depth - 1);
        depth := depth - 1;
      } else {
        if |rest| == 0 {
          return UnexpectedEOF;
        }
        UnwindStep(stack, rest);
        remaining[depth] := remaining[depth] - 1;
        ghost var left := Stack(remaining, depth);
        assert left == stack[depth := stack[depth] - 1];
        var head := ReadHead(rest);
        if head.Bad? {
          return head.verdict;
        }
        ChildrenFit(rest);
        rest := head.rest;
        if head.container {
          if depth == MAX_DEPTH {
            return TooDeep;
          }
          if head.children != 0 {
            depth := depth + 1;
            remaining[depth] := head.children as uint64;
            assert Stack(remaining, depth) == left + [head.children];
          }
        }
      }
    }
  }

  /** The child count of any header fits the 64-bit counter it is stored in. */
  lemma ChildrenFit(data: seq<Byte>)
    requires data != [] && ReadHead(data).Good?
    ensures ReadHead(data).children < TWO_TO_64
  {
    Widths();
    var l := Classify(data[0]);
    if l.width != 0 {
      PutOfUint(data[1..][..l.width]);
    }
  }

  // ------------------------------------------- headers agree with the grammar

  ghost predicate IsContainer(v: Value) { v.Array? || v.Map? }

  function Elements(v: Value): (vs: seq<Value>)
  {
    match v case Array(_, elems) => elems case Map(_, elems) => elems case _ => []
  }

  /** The octets of a container before its elements. */
  function Opening(v: Value): (b: seq<Byte>)
    requires WellFormed(v) && IsContainer(v)
  {
    match v
    case Array(code, elems) => [code] + PutUint(|elems|, ArrayWidth(code).value)
    case Map(code, elems) => [code] + PutUint(|elems| / 2, MapWidth(code).value)
  }

  lemma OpeningPrecedesElements(v: Value)
    requires WellFormed(v) && IsContainer(v)
    ensures AllWellFormed(Elements(v)) && Encode(v) == Opening(v) + EncodeAll(Elements(v))
  {
  }

  /** The grammar's table and the code's switch list the same formats. */
  lemma TablesAgree(code: Byte, n: nat)
    ensures Classify(code).Layout? <==> FixedBody(code).Some? || CountedWidth(code) > 0 || ExtensionWidth(code) > 0
                                        || ArrayWidth(code).Some? || MapWidth(code).Some?
    ensures Classify(code).Layout? ==> var l, width := FullLayout(code, n), Classify(code).width;
      && (FixedBody(code).Some? ==> width == 0 && l == Layout(FixedBody(code).value, 0, 0, false))
      && (CountedWidth(code) > 0 ==> width == CountedWidth(code) && l == Layout(n, 0, width, false))
      && (ExtensionWidth(code) > 0 ==> width == ExtensionWidth(code) && l == Layout(n + 1, 0, width, false))
      && (ArrayWidth(code).Some? ==> width == ArrayWidth(code).value)
      && (ArrayWidth(code).Some? ==> l == Layout(0, if width == 0 then code - 0x90 else n, width, true))
      && (MapWidth(code).Some? ==> width == MapWidth(code).value)
      && (MapWidth(code).Some? ==> l == Layout(0, 2 * if width == 0 then code - 0x80 else n, width, true))
  {
    assert Pow2(0) == 1 && Pow2(1) == 2 && Pow2(2) == 4 && Pow2(3) == 8 && Pow2(4) == 16;
  }

  /** ReadHead in terms of the pieces of its input. */
  lemma ReadHeadOf(code: Byte, count: seq<Byte>, tail: seq<Byte>)
    requires Classify(code).Layout? && |count| == Classify(code).width
    ensures var full := FullLayout(code, Uint(count));
      ReadHead([code] + count + tail) ==
        if full.size > |tail| || full.children > |tail| then Bad(UnexpectedEOF)
        else Good(tail[full.size..], full.container, full.children)
  {
    var data := [code] + count + tail;
    assert data[1..] == count + tail;
    assert data[1..][..|count|] == count && data[1..][|count|..] == tail;
  }

  lemma ReadHeadShort(code: Byte, count: seq<Byte>)
    requires Classify(code).Layout? && |count| < Classify(code).width
    ensures ReadHead([code] + count) == Bad(UnexpectedEOF)
  {
  }

  /** An atom is its code, its length field if it has one, and a body of the promised size. */
  lemma AtomParts(v: Value) returns (count: seq<Byte>, body: seq<Byte>)
    requires WellFormed(v) && !IsContainer(v)
    ensures Classify(v.code).Layout? && |count| == Classify(v.code).width
    ensures Encode(v) == [v.code] + count + body
    ensures FullLayout(v.code, Uint(count)) == Layout(|body|, 0, |count|, false)
  {
    hide Classify, FullLayout, FixedBody, CountedWidth, ExtensionWidth, Uint, PutUint, Pow256;
    TablesAgree(v.code, |v.body|);
    var width := Classify(v.code).width;
    count, body := PutUint(|v.body|, width), if v.Extension? then [v.kind] + v.body else v.body;
    if width > 0 { UintOfPut(|v.body|, width); }
    TablesAgree(v.code, Uint(count));
  }

  lemma AtomHead(v: Value, tail: seq<Byte>)
    requires WellFormed(v) && !IsContainer(v)
    ensures ReadHead(Encode(v) + tail) == Good(tail, false, 0)
  {
    hide Classify, FullLayout, ReadHead, Encode, WellFormed, Uint;
    var count, body := AtomParts(v);
    assert Encode(v) + tail == [v.code] + count + (body + tail);
    assert (body + tail)[|body|..] == tail;
    ReadHeadOf(v.code, count, body + tail);
  }

  lemma ContainerHead(v: Value, tail: seq<Byte>)
    requires WellFormed(v) && IsContainer(v)
    ensures ReadHead(Opening(v) + tail) ==
      if |Elements(v)| > |tail| then Bad(UnexpectedEOF) else Good(tail, true, |Elements(v)|)
  {
    hide Classify, FullLayout, ReadHead, ArrayWidth, MapWidth;
    var n, width := if v.Array? then |v.elems| else |v.elems| / 2,
                    if v.Array? then ArrayWidth(v.code).value else MapWidth(v.code).value;
    var count := PutUint(n, width);
    if width > 0 { UintOfPut(n, width); }
    TablesAgree(v.code, Uint(count));
    assert Opening(v) + tail == [v.code] + count + tail;
    ReadHeadOf(v.code, count, tail);
  }

  /** Cutting a value inside its own header or body is reported as a short read. */
  lemma CutHead(v: Value, cut: nat)
    requires WellFormed(v) && 0 < cut
    requires cut < if IsContainer(v) then |Opening(v)| else |Encode(v)|
    ensures ReadHead(Encode(v)[..cut]) == Bad(UnexpectedEOF)
  {
    hide Classify, FullLayout, ReadHead, FixedBody, CountedWidth, ExtensionWidth, ArrayWidth, MapWidth;
    TablesAgree(v.code, 0);
    var data, width := Encode(v)[..cut], Classify(v.code).width;
    assert data[0] == v.code;
    if cut - 1 < width {
      assert data == [v.code] + data[1..];
      ReadHeadShort(v.code, data[1..]);
    } else if !IsContainer(v) {
      CutBody(v, cut);
    }
  }

  lemma CutBody(v: Value, cut: nat)
    requires WellFormed(v) && !IsContainer(v) && Classify(v.code).Layout?
    requires Classify(v.code).width < cut < |Encode(v)|
    ensures ReadHead(Encode(v)[..cut]) == Bad(UnexpectedEOF)
  {
    hide Classify, FullLayout, ReadHead, Encode, WellFormed, Uint;
    var count, body := AtomParts(v);
    assert Encode(v)[..cut] == [v.code] + count + body[..cut - 1 - |count|];
    ReadHeadOf(v.code, count, body[..cut - 1 - |count|]);
  }

  /** A successful header read, cut into code, length field and what follows. */
  lemma HeadParts(data: seq<Byte>) returns (code: Byte, count: seq<Byte>, body: seq<Byte>)
    requires data != [] && ReadHead(data).Good?
    ensures data == [code] + count + body && Classify(code).Layout? && |count| == Classify(code).width
    ensures PutUint(Uint(count), |count|) == count && Uint(count) < Pow256(|count|)
    ensures var full := FullLayout(code, Uint(count));
      && full.size <= |body|
      && ReadHead(data) == Good(body[full.size..], full.container, full.children)
  {
    hide Classify, FullLayout;
    code := data[0];
    var width := Classify(code).width;
    count, body := data[1..][..width], data[1..][width..];
    PutOfUint(count);
    assert data == [code] + count + body;
  }

  /** The atom a successful header read has skipped. */
  lemma AtomRead(data: seq<Byte>) returns (v: Value)
    requires data != [] && ReadHead(data).Good? && !ReadHead(data).container
    ensures WellFormed(v) && !IsContainer(v) && data == Encode(v) + ReadHead(data).rest
  {
    hide Classify, FullLayout, ReadHead, FixedBody, CountedWidth, ExtensionWidth, ArrayWidth, MapWidth;
    var code, count, body := HeadParts(data);
    TablesAgree(code, Uint(count));
    var full, rest := FullLayout(code, Uint(count)), ReadHead(data).rest;
    assert body == body[..full.size] + rest;
    if FixedBody(code).Some? {
      v := Fixed(code, body[..full.size]);
      assert count == [];
      assert data == [code] + body[..full.size] + rest;
    } else if CountedWidth(code) > 0 {
      v := Counted(code, body[..full.size]);
      assert data == [code] + count + body[..full.size] + rest;
    } else {
      v := Extension(code, body[0], body[1..full.size]);
      assert body[..full.size] == [body[0]] + v.body;
      assert data == [code] + count + [body[0]] + v.body + rest;
    }
  }

  /** The container a successful header read has opened, once its elements are known. */
  lemma ContainerRead(data: seq<Byte>, elems: seq<Value>) returns (v: Value)
    requires data != [] && ReadHead(data).Good? && ReadHead(data).container
    requires AllWellFormed(elems) && |elems| == ReadHead(data).children
    ensures WellFormed(v) && IsContainer(v) && Elements(v) == elems && data == Opening(v) + ReadHead(data).rest
  {
    hide Classify, FullLayout, ReadHead, FixedBody, CountedWidth, ExtensionWidth;
    var code, count, body := HeadParts(data);
    TablesAgree(code, Uint(count));
    v := if ArrayWidth(code).Some? then Array(code, elems) else Map(code, elems);
  }

  // --------------------------------------------- the parser agrees with the grammar

  /** Completeness: what the grammar derives is read back, and nothing after it. */
  lemma {:induction false} ParsesEncoding(vs: seq<Value>, tail: seq<Byte>, depth: nat)
    requires AllWellFormed(vs) && AllDepth(vs) + depth <= MAX_DEPTH
    ensures ParseAll(|vs|, EncodeAll(vs) + tail, depth) == Done(tail)
    decreases vs, 0
  {
    hide ReadHead, Encode, WellFormed, Depth;
    if vs == [] {
      assert EncodeAll(vs) + tail == tail;
    } else {
      var after := EncodeAll(vs[1..]) + tail;
      assert EncodeAll(vs) + tail == Encode(vs[0]) + after;
      ReadsOne(vs[0], |vs|, after, depth);
      ParsesEncoding(vs[1..], tail, depth);
    }
  }

  /** One value is read off the front, whatever follows it. */
  lemma {:induction false} ReadsOne(v: Value, n: nat, after: seq<Byte>, depth: nat)
    requires WellFormed(v) && Depth(v) + depth <= MAX_DEPTH && n > 0
    ensures ParseAll(n, Encode(v) + after, depth) == ParseAll(n - 1, after, depth)
    decreases v, 1
  {
    hide ReadHead, Opening, Encode, WellFormed;
    if IsContainer(v) {
      OpeningPrecedesElements(v);
      var elems := Elements(v);
      assert Encode(v) + after == Opening(v) + (EncodeAll(elems) + after);
      ContainerHead(v, EncodeAll(elems) + after);
      ParsesEncoding(v.elems, after, depth + 1);
      if elems == [] { assert EncodeAll(elems) + after == after; }
    } else {
      AtomHead(v, after);
    }
  }

  lemma Prepend(v: Value, others: seq<Value>)
    requires WellFormed(v) && AllWellFormed(others)
    ensures AllWellFormed([v] + others)
    ensures EncodeAll([v] + others) == Encode(v) + EncodeAll(others)
    ensures AllDepth([v] + others) == Max(Depth(v), AllDepth(others))
  {
    hide WellFormed, Encode, Depth;
    assert ([v] + others)[1..] == others;
  }

  /** Soundness: whatever is read successfully is derived by the grammar. */
  lemma {:induction false} ParsedIsEncoding(n: nat, data: seq<Byte>, depth: nat) returns (vs: seq<Value>)
    requires depth <= MAX_DEPTH && ParseAll(n, data, depth).Done?
    ensures |vs| == n && AllWellFormed(vs) && AllDepth(vs) + depth <= MAX_DEPTH
    ensures data == EncodeAll(vs) + ParseAll(n, data, depth).rest
    decreases |data|, n
  {
    hide ReadHead, Encode, WellFormed;
    if n == 0 {
      vs := [];
    } else {
      var v, after := ParsedFirst(n, data, depth);
      var others := ParsedIsEncoding(n - 1, after, depth);
      vs := [v] + others;
      Prepend(v, others);
    }
  }

  lemma ParsedFirst(n: nat, data: seq<Byte>, depth: nat) returns (v: Value, after: seq<Byte>)
    requires 0 < n && depth <= MAX_DEPTH && ParseAll(n, data, depth).Done?
    ensures WellFormed(v) && Depth(v) + depth <= MAX_DEPTH
    ensures |after| < |data| && data == Encode(v) + after
    ensures ParseAll(n, data, depth) == ParseAll(n - 1, after, depth)
    decreases |data|, n, 0
  {
    hide ReadHead, Encode, WellFormed, Opening;
    var h := ReadHead(data);
    after := h.rest;
    if h.container {
      var elems := [];
      if h.children > 0 {
        elems := ParsedIsEncoding(h.children, h.rest, depth + 1);
        after := ParseAll(h.children, h.rest, depth + 1).rest;
      }
      assert h.rest == EncodeAll(elems) + after;
      v := ContainerRead(data, elems);
      OpeningPrecedesElements(v);
    } else {
      v := AtomRead(data);
    }
  }

  /** Every cut short of the end is a short read, at whatever depth it falls. */
  lemma {:induction false} CutIsShort(vs: seq<Value>, cut: nat, depth: nat)
    requires AllWellFormed(vs) && AllDepth(vs) + depth <= MAX_DEPTH
    requires cut < |EncodeAll(vs)|
    ensures ParseAll(|vs|, EncodeAll(vs)[..cut], depth) == Stop(UnexpectedEOF)
    decreases vs, 0
  {
    hide ReadHead, Encode, WellFormed, Depth;
    var v, data := vs[0], EncodeAll(vs)[..cut];
    if cut >= |Encode(v)| {
      var rest := EncodeAll(vs[1..])[..cut - |Encode(v)|];
      assert data == Encode(v) + rest;
      ReadsOne(v, |vs|, rest, depth);
      CutIsShort(vs[1..], cut - |Encode(v)|, depth);
    } else if cut > 0 {
      assert data == Encode(v)[..cut];
      CutOne(v, |vs|, cut, depth);
    }
  }

  lemma {:induction false} CutOne(v: Value, n: nat, cut: nat, depth: nat)
    requires WellFormed(v) && Depth(v) + depth <= MAX_DEPTH && n > 0 && 0 < cut < |Encode(v)|
    ensures ParseAll(n, Encode(v)[..cut], depth) == Stop(UnexpectedEOF)
    decreases v, 1
  {
    hide ReadHead, Opening, Encode, WellFormed;
    if IsContainer(v) && cut >= |Opening(v)| {
      OpeningPrecedesElements(v);
      var inner := cut - |Opening(v)|;
      assert Encode(v)[..cut] == Opening(v) + EncodeAll(Elements(v))[..inner];
      ContainerHead(v, EncodeAll(Elements(v))[..inner]);
      CutIsShort(v.elems, inner, depth + 1);
    } else {
      CutHead(v, cut);
    }
  }

  // ------------------------------------------------------------- main results

  lemma SingleValue(v: Value)
    requires WellFormed(v)
    ensures AllWellFormed([v]) && EncodeAll([v]) == Encode(v) && AllDepth([v]) == Depth(v)
  {
    assert [v][1..] == [];
    assert EncodeAll([v]) == Encode(v) + EncodeAll([]);
  }

  /** How the verdict on the whole input follows from reading one value. */
  lemma ValidatedIs(data: seq<Byte>)
    ensures Validated(data) ==
      match ParseAll(1, data, 0)
      case Stop(v) => v
      case Done(rest) => if rest == [] then Valid else TrailingData
  {
    match ParseAll(1, data, 0)
    case Stop(_) =>
    case Done(rest) =>
      assert [1][..0] == [];
      assert Unwind([1], data) == Unwind([1][..0], rest);
  }

  /** The validator accepts exactly the single values nested at most 64 deep. */
  lemma ValidatedIsExact(data: seq<Byte>)
    ensures Validated(data) == Valid <==> Acceptable(data)
  {
    hide ReadHead, ParseAll, Encode, WellFormed, Unwind, Depth, Validated;
    ValidatedIs(data);
    if Validated(data) == Valid {
      var vs := ParsedIsEncoding(1, data, 0);
      SingleValue(vs[0]);
      assert vs == [vs[0]];
      assert data == EncodeAll(vs) + [] == Encode(vs[0]);
    }
    if v :| WellFormed(v) && Depth(v) <= MAX_DEPTH && Encode(v) == data {
      SingleValue(v);
      ParsesEncoding([v], [], 0);
      assert EncodeAll([v]) + [] == data;
    }
  }

  /** Every proper prefix of an accepted input is exactly a short read. */
  lemma PrefixIsShort(data: seq<Byte>, cut: nat)
    requires Acceptable(data) && cut < |data|
    ensures Validated(data[..cut]) == UnexpectedEOF
  {
    var v :| WellFormed(v) && Depth(v) <= MAX_DEPTH && Encode(v) == data;
    SingleValue(v);
    CutIsShort([v], cut, 0);
    ValidatedIs(data[..cut]);
  }

  /** The one octet that begins no value, read where a value is due: whatever values have been read
      before it, and whatever containers are open, the verdict is that the code is invalid. */
  lemma BadCodeIsReported(stack: seq<nat>, vs: seq<Value>, rest: seq<Byte>)
    requires |stack| > 0 && |vs| < stack[|stack| - 1]
    requires AllWellFormed(vs) && AllDepth(vs) + |stack| - 1 <= MAX_DEPTH
    ensures Unwind(stack, EncodeAll(vs) + ([0xc1] + rest)) == InvalidCode
  {
    hide ReadHead, Encode, WellFormed;
    BadCodeStops(stack[|stack| - 1], vs, rest, |stack| - 1);
  }

  lemma {:induction false} BadCodeStops(n: nat, vs: seq<Value>, rest: seq<Byte>, depth: nat)
    requires |vs| < n && AllWellFormed(vs) && AllDepth(vs) + depth <= MAX_DEPTH
    ensures ParseAll(n, EncodeAll(vs) + ([0xc1] + rest), depth) == Stop(InvalidCode)
    decreases vs
  {
    hide ReadHead, Encode, WellFormed, Depth;
    var bad := [0xc1] + rest;
    if vs == [] {
      assert EncodeAll(vs) + bad == bad;
      BadCodeIsExact(bad);
    } else {
      assert EncodeAll(vs) + bad == Encode(vs[0]) + (EncodeAll(vs[1..]) + bad);
      ReadsOne(vs[0], n, EncodeAll(vs[1..]) + bad, depth);
      BadCodeStops(n - 1, vs[1..], rest, depth);
    }
  }

  /** A header is refused for its code exactly when that code begins no value. */
  lemma BadCodeIsExact(data: seq<Byte>)
    requires data != []
    ensures ReadHead(data) == Bad(InvalidCode) <==> data[0] == 0xc1
  {
    hide Uint;
  }

  /** The verdict is never given without that octet. */
  lemma {:induction false} BadCodeNeedsOctet(n: nat, data: seq<Byte>, depth: nat)
    requires ParseAll(n, data, depth) == Stop(InvalidCode)
    ensures 0xc1 in data
    decreases |data|, n
  {
    hide ReadHead;
    BadCodeIsExact(data);
    var h := ReadHead(data);
    if h.Good? {
      RestIsSuffix(data);
      if h.children > 0 && ParseAll(h.children, h.rest, depth + 1) == Stop(InvalidCode) {
        BadCodeNeedsOctet(h.children, h.rest, depth + 1);
      } else if h.children > 0 {
        var after := ParseAll(h.children, h.rest, depth + 1).rest;
        BadCodeNeedsOctet(n - 1, after, depth);
        ParsedLeavesSuffix(h.children, h.rest, depth + 1);
      } else {
        BadCodeNeedsOctet(n - 1, h.rest, depth);
      }
    }
  }

  lemma RestIsSuffix(data: seq<Byte>)
    requires data != [] && ReadHead(data).Good?
    ensures forall b | b in ReadHead(data).rest :: b in data
  {
    hide Classify, FullLayout, Uint;
  }

  lemma {:induction false} ParsedLeavesSuffix(n: nat, data: seq<Byte>, depth: nat)
    requires ParseAll(n, data, depth).Done?
    ensures forall b | b in ParseAll(n, data, depth).rest :: b in data
    decreases |data|, n
  {
    hide ReadHead;
    if n > 0 {
      var h := ReadHead(data);
      RestIsSuffix(data);
      if h.children > 0 {
        ParsedLeavesSuffix(h.children, h.rest, depth + 1);
        ParsedLeavesSuffix(n - 1, ParseAll(h.children, h.rest, depth + 1).rest, depth);
      } else {
        ParsedLeavesSuffix(n - 1, h.rest, depth);
      }
    }
  }

  /** A container inside 64 others is refused for its depth, provided its header is complete and
      announces no more elements than octets are left. */
  lemma DeepContainerIsRefused(v: Value, n: nat, tail: seq<Byte>)
    requires WellFormed(v) && IsContainer(v) && n > 0
    ensures ParseAll(n, Opening(v) + tail, MAX_DEPTH)
            == Stop(if |Elements(v)| > |tail| then UnexpectedEOF else TooDeep)
  {
    hide ReadHead, WellFormed, Opening;
    ContainerHead(v, tail);
    assert |Opening(v)| > 0 by { OpeningIsNotEmpty(v); }
  }

  lemma OpeningIsNotEmpty(v: Value)
    requires WellFormed(v) && IsContainer(v)
    ensures |Opening(v)| > 0
  {
  }

  /** Trailing data is reported exactly when a proper prefix is itself acceptable. */
  lemma TrailingIsExact(data: seq<Byte>)
    ensures Validated(data) == TrailingData <==> exists cut :: 0 <= cut < |data| && Acceptable(data[..cut])
  {
    hide ReadHead, ParseAll, Encode, WellFormed, Unwind, Depth, Validated;
    ValidatedIs(data);
    if Validated(data) == TrailingData {
      var vs := ParsedIsEncoding(1, data, 0);
      var rest := ParseAll(1, data, 0).rest;
      SingleValue(vs[0]);
      assert vs == [vs[0]];
      assert data[..|data| - |rest|] == Encode(vs[0]);
      assert Acceptable(data[..|data| - |rest|]);
    }
    if cut :| 0 <= cut < |data| && Acceptable(data[..cut]) {
      SuffixIsTrailing(data[..cut], data[cut..]);
      assert data == data[..cut] + data[cut..];
    }
  }

  /** An accepted input followed by anything at all is trailing data. */
  lemma SuffixIsTrailing(data: seq<Byte>, extra: seq<Byte>)
    requires Acceptable(data) && extra != []
    ensures Validated(data + extra) == TrailingData
  {
    var v :| WellFormed(v) && Depth(v) <= MAX_DEPTH && Encode(v) == data;
    SingleValue(v);
    ParsesEncoding([v], extra, 0);
    ValidatedIs(data + extra);
  }
}
