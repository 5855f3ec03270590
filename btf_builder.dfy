/**
 * The BTF type graph, the Builder that assigns type IDs, and Marshal/load
 * at the level of the ID-indexed type table.
 *
 * The graph is an arena: every Type object has an identity (a `Ref`, its
 * address in Go), and a type refers to other types by identity. A Type
 * value is generic in what its references are: `Type<Ref>` in the graph,
 * `Type<TypeID>` in the marshaled table, where references are type IDs.
 */
module BtfBuilder {

  /** The identity of a Type object. */
  type Ref = int

  /**
   * A BTF type ID; 0 is always Void. The IDs a Builder hands out are 0 and
   * up (WellFormed), so the synonym needs no range of its own.
   */
  type TypeID = int

  /** Int encoding flags (Signed, Char and Bool can be combined). */
  datatype IntEncoding = IntEncoding(signed: bool, isChar: bool, isBool: bool)

  const Unsigned := IntEncoding(false, false, false)
  const Signed := IntEncoding(true, false, false)

  datatype MemberInfo = MemberInfo(name: string, offset: nat)
  datatype EnumValue = EnumValue(name: string, value: int)
  datatype FwdKind = FwdStruct | FwdUnion

  /**
   * The closed set of type variants with their own attributes. The types a
   * variant refers to are not part of its Kind but listed in order in the
   * Type: the target of a Pointer, Typedef or Func, the index and element
   * type of an Array, the member types of a Struct or Union, the return
   * type then the parameter types of a FuncProto.
   */
  datatype Kind =
    | KVoid
    | KInt(name: string, size: nat, encoding: IntEncoding)
    | KPointer
    | KArray(nelems: nat)
    | KStruct(name: string, size: nat, members: seq<MemberInfo>)
    | KUnion(name: string, size: nat, members: seq<MemberInfo>)
    | KEnum(name: string, size: nat, signed: bool, values: seq<EnumValue>)
    | KTypedef(name: string)
    | KFwd(name: string, fwd: FwdKind)
    | KFunc(name: string)
    | KFuncProto(params: seq<string>)

  /** How many types a variant refers to. */
  function Arity(k: Kind): nat
  {
    match k
    case KPointer => 1
    case KArray(_) => 2
    case KStruct(_, _, ms) => |ms|
    case KUnion(_, _, ms) => |ms|
    case KTypedef(_) => 1
    case KFunc(_) => 1
    case KFuncProto(ps) => 1 + |ps|
    case _ => 0
  }

  /**
   * A type: its variant and the types it refers to directly, in declaration
   * order. Generic in what a reference is: `Type<Ref>` in the graph, where
   * references are identities, `Type<TypeID>` in the marshaled table.
   */
  datatype Type<R> = Type(kind: Kind, refs: seq<R>)

  const VoidType: Type<TypeID> := Type(KVoid, [])

  predicate IsVoid<R>(t: Type<R>)
  {
    t.kind.KVoid?
  }

  /** A type refers to as many types as its variant has slots for. */
  predicate WellShaped<R>(t: Type<R>)
  {
    |t.refs| == Arity(t.kind)
  }

  /** The Type objects of a program, by identity. */
  type Heap = map<Ref, Type<Ref>>

  /* ---------------------------------------------------------------------
   * Builder.Add and NewBuilder
   * ------------------------------------------------------------------- */

  /**
   * The Builder's state: the explicitly added types in order, and the ID of
   * each of them by identity. The type at index k has ID k + 1.
   */
  datatype BuilderState = BuilderState(types: seq<Ref>, ids: map<Ref, TypeID>)

  const Empty := BuilderState([], map[])

  /** The ID map and the type sequence describe each other. */
  predicate WellFormed(st: BuilderState)
  {
    && (forall k :: 0 <= k < |st.types| ==> st.types[k] in st.ids && st.ids[st.types[k]] == k + 1)
    && (forall r :: r in st.ids ==> 1 <= st.ids[r] <= |st.types| && st.types[st.ids[r] - 1] == r)
  }

  /**
   * Builder.Add: Void always has ID 0 and is not recorded; a type added
   * before gets its ID back; any other type is appended and gets the next
   * ID. Only `t` itself is recorded, not the types it refers to.
   */
  function AddType(st: BuilderState, heap: Heap, t: Ref): (BuilderState, TypeID)
    requires t in heap
  {
    if IsVoid(heap[t]) then (st, 0)
    else if t in st.ids then (st, st.ids[t])
    else (BuilderState(st.types + [t], st.ids[t := |st.types| + 1]), |st.types| + 1)
  }

  /** Adding every element of `list` in order. */
  function AddAll(st: BuilderState, heap: Heap, list: seq<Ref>): (res: BuilderState)
    requires forall r :: r in list ==> r in heap
    ensures forall r :: r in res.types ==> r in st.types || r in list
    decreases |list|
  {
    if list == [] then st
    else AddAll(AddType(st, heap, list[0]).0, heap, list[1..])
  }

  /**
   * Add keeps the state well formed, never renumbers or removes an entry,
   * and the ID it returns belongs to `t`: 0 for Void, otherwise the position
   * of `t` in the type sequence plus one.
   */
  lemma AddKeepsIds(st: BuilderState, heap: Heap, t: Ref)
    requires WellFormed(st) && t in heap
    ensures var (st', id) := AddType(st, heap, t);
      && WellFormed(st')
      && st.types <= st'.types
      && (forall r :: r in st.ids ==> r in st'.ids && st'.ids[r] == st.ids[r])
      && (IsVoid(heap[t]) <==> id == 0)
      && (id != 0 ==> id <= |st'.types| && st'.types[id - 1] == t && t in st'.ids && st'.ids[t] == id)
  {
    if !IsVoid(heap[t]) && t !in st.ids {
      var st' := AddType(st, heap, t).0;
      forall k | 0 <= k < |st'.types| ensures st'.types[k] in st'.ids && st'.ids[st'.types[k]] == k + 1 {
        if k < |st.types| {
          assert st'.types[k] == st.types[k] && st.types[k] != t;
        }
      }
      forall r | r in st'.ids ensures 1 <= st'.ids[r] <= |st'.types| && st'.types[st'.ids[r] - 1] == r {
        if r != t {
          assert st'.ids[r] == st.ids[r];
        }
      }
    }
  }

  /** Adding a type a second time returns the same ID and changes nothing. */
  lemma AddIdempotent(st: BuilderState, heap: Heap, t: Ref)
    requires WellFormed(st) && t in heap
    ensures var (st', id) := AddType(st, heap, t);
      AddType(st', heap, t) == (st', id)
  {
  }

  /**
   * A non-void type not added before gets the next ID, strictly above every
   * ID handed out so far, and it is the only new entry: types it refers to
   * stay unregistered.
   */
  lemma AddFresh(st: BuilderState, heap: Heap, t: Ref)
    requires WellFormed(st) && t in heap && !IsVoid(heap[t]) && t !in st.ids
    ensures var (st', id) := AddType(st, heap, t);
      && id == |st.types| + 1
      && (forall r :: r in st.ids ==> st.ids[r] < id)
      && st'.ids.Keys == st.ids.Keys + {t}
  {
  }

  /** The first non-void type added to an empty Builder gets ID 1. */
  lemma FirstTypeGetsOne(heap: Heap, t: Ref)
    requires t in heap && !IsVoid(heap[t])
    ensures AddType(Empty, heap, t).1 == 1
  {
  }

  /** The Int of the Builder tests. */
  const FooInt: Type<Ref> := Type(KInt("foo", 2, IntEncoding(true, true, false)), [])

  /** The ID sequence of the Add test: a pointer, again, its target, again, a new typedef. */
  lemma BuilderAddScenario(heap: Heap, i: Ref, pi: Ref, td: Ref)
    requires i in heap && pi in heap && td in heap
    requires heap[i] == FooInt
    requires heap[pi] == Type(KPointer, [i])
    requires heap[td] == Type(KTypedef("baz"), [i])
    requires pi != i && td != i && td != pi
    ensures var (s1, id1) := AddType(Empty, heap, pi);
      var (s2, id2) := AddType(s1, heap, pi);
      var (s3, id3) := AddType(s2, heap, i);
      var (s4, id4) := AddType(s3, heap, i);
      var (s5, id5) := AddType(s4, heap, td);
      id1 == 1 && id2 == 1 && id3 == 2 && id4 == 2 && id5 == 3 && s5.types == [pi, i, td]
  {
  }

  /** `list` holds no identity twice. */
  predicate Distinct(list: seq<Ref>)
  {
    forall j, k :: 0 <= j < k < |list| ==> list[j] != list[k]
  }

  /**
   * Adding a list of distinct non-void types to a Builder appends them in
   * order, with consecutive IDs after the existing ones.
   */
  lemma {:induction false} AddAllFresh(st: BuilderState, heap: Heap, list: seq<Ref>)
    requires WellFormed(st) && Distinct(list)
    requires forall r :: r in list ==> r in heap && !IsVoid(heap[r]) && r !in st.ids
    ensures var st' := AddAll(st, heap, list);
      && WellFormed(st')
      && st'.types == st.types + list
      && (forall k :: 0 <= k < |list| ==> list[k] in st'.ids && st'.ids[list[k]] == |st.types| + k + 1)
    decreases |list|
  {
    if list != [] {
      var st1 := AddType(st, heap, list[0]).0;
      AddKeepsIds(st, heap, list[0]);
      assert st1.ids.Keys == st.ids.Keys + {list[0]};
      DistinctTail(list);
      assert forall r :: r in list[1..] ==> r in heap && !IsVoid(heap[r]) && r !in st1.ids by {
        forall r | r in list[1..] ensures r in heap && !IsVoid(heap[r]) && r !in st1.ids {
          assert r in list && r != list[0];
        }
      }
      AddAllFresh(st1, heap, list[1..]);
      var st' := AddAll(st, heap, list);
      assert st' == AddAll(st1, heap, list[1..]);
      assert st1.types == st.types + [list[0]];
      MoveHead(st.types, list);
      forall k | 0 <= k < |list| ensures list[k] in st'.ids && st'.ids[list[k]] == |st.types| + k + 1 {
        if k > 0 {
          assert list[k] == list[1..][k - 1];
        } else {
          assert st'.types[|st.types|] == list[0];
        }
      }
    }
  }

  /** Moving the head of `l` to the end of `a` keeps the concatenation. */
  lemma MoveHead(a: seq<Ref>, l: seq<Ref>)
    requires l != []
    ensures (a + [l[0]]) + l[1..] == a + l
  {
    assert l == [l[0]] + l[1..];
  }

  /** The tail of a distinct list is distinct and does not hold its head. */
  lemma DistinctTail(list: seq<Ref>)
    requires list != [] && Distinct(list)
    ensures Distinct(list[1..])
    ensures forall r :: r in list[1..] ==> r != list[0]
  {
    forall r | r in list[1..] ensures r != list[0] {
      var k :| 0 <= k < |list[1..]| && list[1..][k] == r;
      assert list[k + 1] == r;
    }
    forall j, k | 0 <= j < k < |list[1..]| ensures list[1..][j] != list[1..][k] {
      assert list[1..][j] == list[j + 1] && list[1..][k] == list[k + 1];
    }
  }

  /**
   * NewBuilder on a list that starts with Void and holds distinct non-void
   * types after it reproduces the list: Void is ID 0 and element k gets ID k.
   */
  lemma NewBuilderReproducesList(heap: Heap, list: seq<Ref>)
    requires |list| > 0 && list[0] in heap && IsVoid(heap[list[0]])
    requires Distinct(list[1..])
    requires forall r :: r in list[1..] ==> r in heap && !IsVoid(heap[r])
    ensures var st := AddAll(Empty, heap, list);
      && WellFormed(st)
      && st.types == list[1..]
      && (forall k :: 1 <= k < |list| ==> list[k] in st.ids && st.ids[list[k]] == k)
  {
    assert AddType(Empty, heap, list[0]).0 == Empty;
    AddAllFresh(Empty, heap, list[1..]);
    var st := AddAll(Empty, heap, list);
    forall k | 1 <= k < |list| ensures list[k] in st.ids && st.ids[list[k]] == k {
      assert list[k] == list[1..][k - 1];
    }
  }

  /* ---------------------------------------------------------------------
   * Marshal and load, at the level of the type table
   * ------------------------------------------------------------------- */

  datatype MarshalOptions = MarshalOptions(replaceEnum64: bool)

  /** Every added type is an object of `heap`. */
  predicate InHeap(heap: Heap, st: BuilderState)
  {
    forall k :: 0 <= k < |st.types| ==> st.types[k] in heap
  }

  /**
   * `r` is a well-shaped, non-void object whose references are Void or types
   * added to the Builder.
   */
  predicate TypeClosed(heap: Heap, st: BuilderState, r: Ref)
  {
    && r in heap
    && !IsVoid(heap[r])
    && WellShaped(heap[r])
    && forall c :: c in heap[r].refs ==> c in heap && (IsVoid(heap[c]) || c in st.ids)
  }

  /** Every added type is closed: the Builder's types refer to nothing outside it but Void. */
  predicate Closed(heap: Heap, st: BuilderState)
  {
    && InHeap(heap, st)
    && forall k :: 0 <= k < |st.types| ==> TypeClosed(heap, st, st.types[k])
  }

  /** The objects of `refs`, in order. */
  function ObjectsOf(heap: Heap, refs: seq<Ref>): (objs: seq<Type<Ref>>)
    requires forall k :: 0 <= k < |refs| ==> refs[k] in heap
    ensures |objs| == |refs|
    ensures forall k :: 0 <= k < |objs| ==> objs[k] == heap[refs[k]]
  {
    if refs == [] then [] else [heap[refs[0]]] + ObjectsOf(heap, refs[1..])
  }

  /** The added types' objects, in ID order. */
  function Objects(heap: Heap, st: BuilderState): (objs: seq<Type<Ref>>)
    requires InHeap(heap, st)
    ensures |objs| == |st.types|
    ensures forall k :: 0 <= k < |objs| ==> objs[k] == heap[st.types[k]]
  {
    ObjectsOf(heap, st.types)
  }

  /** The ID the encoder writes for a reference: the added type's ID, or 0 for Void. */
  function IdOf(st: BuilderState, r: Ref): TypeID
  {
    if r in st.ids then st.ids[r] else 0
  }

  /** The IDs of `rs`, in order. */
  function IdsOf(st: BuilderState, rs: seq<Ref>): (ids: seq<TypeID>)
    ensures |ids| == |rs|
    ensures forall i :: 0 <= i < |rs| ==> ids[i] == IdOf(st, rs[i])
  {
    if rs == [] then [] else [IdOf(st, rs[0])] + IdsOf(st, rs[1..])
  }

  /**
   * The record of `t`: the same variant and attributes, with every
   * reference replaced by the referenced type's ID.
   */
  function Resolve(t: Type<Ref>, st: BuilderState): (r: Type<TypeID>)
    ensures r.kind == t.kind && |r.refs| == |t.refs|
    ensures forall i :: 0 <= i < |t.refs| ==> r.refs[i] == IdOf(st, t.refs[i])
  {
    Type(t.kind, IdsOf(st, t.refs))
  }

  /** An enum whose values need 64 bits (it is 8 bytes wide). */
  predicate IsEnum64<R>(t: Type<R>)
  {
    t.kind.KEnum? && t.kind.size == 8
  }

  predicate Replaced<R>(opts: MarshalOptions, t: Type<R>)
  {
    opts.replaceEnum64 && IsEnum64(t)
  }

  /** The Int every member of a replaced 64-bit enum points to: same size and signedness. */
  function Placeholder(t: Type<Ref>): (p: Type<TypeID>)
    requires t.kind.KEnum?
    ensures p.kind.KInt? && p.kind.size == t.kind.size && p.kind.encoding.signed == t.kind.signed
    ensures p.refs == []
  {
    var e := t.kind;
    Type(KInt(e.name + "_placeholder", e.size, if e.signed then Signed else Unsigned), [])
  }

  /** One member at offset 0 per enum value, named after it. */
  function ValueMembers(vs: seq<EnumValue>): (ms: seq<MemberInfo>)
    ensures |ms| == |vs|
    ensures forall i :: 0 <= i < |vs| ==> ms[i] == MemberInfo(vs[i].name, 0)
  {
    if vs == [] then [] else [MemberInfo(vs[0].name, 0)] + ValueMembers(vs[1..])
  }

  /** `n` references to `p`. */
  function Repeat(p: TypeID, n: nat): (ps: seq<TypeID>)
    ensures |ps| == n && forall i :: 0 <= i < n ==> ps[i] == p
  {
    if n == 0 then [] else [p] + Repeat(p, n - 1)
  }

  /** The union that stands in for a 64-bit enum: one member per value, all of type `p`. */
  function UnionFor(t: Type<Ref>, p: TypeID): (u: Type<TypeID>)
    requires t.kind.KEnum?
    ensures u.kind.KUnion? && u.kind.name == t.kind.name && u.kind.size == t.kind.size
    ensures |u.kind.members| == |u.refs| == |t.kind.values|
    ensures forall i :: 0 <= i < |t.kind.values| ==> u.kind.members[i].name == t.kind.values[i].name && u.refs[i] == p
  {
    var e := t.kind;
    Type(KUnion(e.name, e.size, ValueMembers(e.values)), Repeat(p, |e.values|))
  }

  /** The record of the added type `t`; `p` is the ID its placeholder would get. */
  function Record(t: Type<Ref>, st: BuilderState, opts: MarshalOptions, p: TypeID): Type<TypeID>
  {
    if Replaced(opts, t) then UnionFor(t, p) else Resolve(t, st)
  }

  /** The placeholder `t` allocates, if any. */
  function Allocated(t: Type<Ref>, opts: MarshalOptions): seq<Type<TypeID>>
  {
    if Replaced(opts, t) then [Placeholder(t)] else []
  }

  /** How many of the first k types of `ts` are 64-bit enums replaced by a union. */
  function CountReplaced(opts: MarshalOptions, ts: seq<Type<Ref>>, k: nat): (c: nat)
    requires k <= |ts|
    ensures c <= k
    ensures !opts.replaceEnum64 ==> c == 0
  {
    if k == 0 then 0
    else CountReplaced(opts, ts, k - 1) + (if Replaced(opts, ts[k - 1]) then 1 else 0)
  }

  /**
   * The placeholder types allocated while encoding the first k types of
   * `ts`, in allocation order: one Int per replaced enum.
   */
  function Pending(opts: MarshalOptions, ts: seq<Type<Ref>>, k: nat): (ps: seq<Type<TypeID>>)
    requires k <= |ts|
    ensures |ps| == CountReplaced(opts, ts, k)
    ensures forall j :: 0 <= j < |ps| ==> ps[j].kind.KInt? && ps[j].refs == []
  {
    if k == 0 then []
    else Pending(opts, ts, k - 1) + Allocated(ts[k - 1], opts)
  }

  /**
   * The record of the type at index k of `ts`: the placeholder of a
   * replaced enum gets the next ID after the last added type (there are
   * `n`) and the placeholders allocated before it.
   */
  function RecordOf(st: BuilderState, opts: MarshalOptions, n: nat, ts: seq<Type<Ref>>, k: nat): Type<TypeID>
    requires k < |ts|
  {
    Record(ts[k], st, opts, n + CountReplaced(opts, ts, k) + 1)
  }

  /** The records of the first i types of `ts`. */
  function RecordsUpTo(st: BuilderState, opts: MarshalOptions, n: nat, ts: seq<Type<Ref>>, i: nat): (rs: seq<Type<TypeID>>)
    requires i <= |ts|
    ensures |rs| == i
    ensures forall k :: 0 <= k < i ==> rs[k] == RecordOf(st, opts, n, ts, k)
  {
    if i == 0 then [] else RecordsUpTo(st, opts, n, ts, i - 1) + [RecordOf(st, opts, n, ts, i - 1)]
  }

  /** The type table of the objects `ts`: their records in order, then the placeholders. */
  function Table(st: BuilderState, opts: MarshalOptions, ts: seq<Type<Ref>>): (wire: seq<Type<TypeID>>)
    ensures |wire| == |ts| + CountReplaced(opts, ts, |ts|)
  {
    RecordsUpTo(st, opts, |ts|, ts, |ts|) + Pending(opts, ts, |ts|)
  }

  /** The type table Marshal writes: the added types in ID order, then the placeholders. */
  function Encode(heap: Heap, st: BuilderState, opts: MarshalOptions): (wire: seq<Type<TypeID>>)
    requires InHeap(heap, st)
    ensures |wire| == |st.types| + CountReplaced(opts, Objects(heap, st), |st.types|)
  {
    Table(st, opts, Objects(heap, st))
  }

  /** The record at index k of the table of `ts`. */
  lemma TableRecordAt(st: BuilderState, opts: MarshalOptions, ts: seq<Type<Ref>>, k: nat)
    requires k < |ts|
    ensures Table(st, opts, ts)[k] == RecordOf(st, opts, |ts|, ts, k)
  {
  }

  /** The record of the added type at index k. */
  lemma EncodeRecordAt(heap: Heap, st: BuilderState, opts: MarshalOptions, k: nat)
    requires InHeap(heap, st) && k < |st.types|
    ensures Encode(heap, st, opts)[k] == RecordOf(st, opts, |st.types|, Objects(heap, st), k)
  {
    TableRecordAt(st, opts, Objects(heap, st), k);
  }

  /** The placeholder at index |ts| + j of the same table. */
  lemma TablePlaceholderAt(st: BuilderState, opts: MarshalOptions, ts: seq<Type<Ref>>, j: nat)
    requires j < CountReplaced(opts, ts, |ts|)
    ensures Table(st, opts, ts)[|ts| + j] == Pending(opts, ts, |ts|)[j]
  {
  }

  /** The j-th placeholder, after the added types. */
  lemma EncodePlaceholderAt(heap: Heap, st: BuilderState, opts: MarshalOptions, j: nat)
    requires InHeap(heap, st)
    requires j < CountReplaced(opts, Objects(heap, st), |st.types|)
    ensures Encode(heap, st, opts)[|st.types| + j] == Pending(opts, Objects(heap, st), |st.types|)[j]
  {
    TablePlaceholderAt(st, opts, Objects(heap, st), j);
  }

  datatype LoadError = UnknownKind(id: TypeID) | ReferenceOutOfRange(id: TypeID)
  datatype LoadResult = Loaded(types: seq<Type<TypeID>>) | LoadFailed(error: LoadError)

  /** A record with a kind of its own whose references are all below `n`. */
  predicate GoodRecord(t: Type<TypeID>, n: nat)
  {
    !IsVoid(t) && forall c :: c in t.refs ==> c < n
  }

  /** The first record of `wire` that is not a valid type, if any. */
  function FirstBadRecord(wire: seq<Type<TypeID>>, n: nat): (k: nat)
    ensures k <= |wire|
    ensures forall j :: 0 <= j < k ==> GoodRecord(wire[j], n)
    ensures k < |wire| ==> !GoodRecord(wire[k], n)
  {
    if wire == [] then 0
    else if !GoodRecord(wire[0], n) then 0
    else 1 + FirstBadRecord(wire[1..], n)
  }

  /**
   * Loading a type table: Void is ID 0 and record k is ID k + 1. A record
   * without a kind of its own (Void) or referring past the end of the table
   * is a format error, reported with the offending ID.
   */
  function Load(wire: seq<Type<TypeID>>): (r: LoadResult)
    ensures r.Loaded? ==> r.types == [VoidType] + wire
    ensures r.Loaded? <==> forall k :: 0 <= k < |wire| ==> GoodRecord(wire[k], |wire| + 1)
    ensures r.LoadFailed? ==> 1 <= r.error.id <= |wire| && !GoodRecord(wire[r.error.id - 1], |wire| + 1)
    ensures r.LoadFailed? ==> forall j :: 0 <= j < r.error.id - 1 ==> GoodRecord(wire[j], |wire| + 1)
    ensures r.LoadFailed? ==> (r.error.UnknownKind? <==> IsVoid(wire[r.error.id - 1]))
  {
    var k := FirstBadRecord(wire, |wire| + 1);
    if k == |wire| then Loaded([VoidType] + wire)
    else if IsVoid(wire[k]) then LoadFailed(UnknownKind(k + 1))
    else LoadFailed(ReferenceOutOfRange(k + 1))
  }

  /**
   * One step of the encoder: with the records and placeholders of the first
   * i types in hand, the record of type i and then its placeholder, if it has
   * one, are appended.
   */
  lemma EncodeStep(st: BuilderState, opts: MarshalOptions, n: nat, ts: seq<Type<Ref>>, i: nat,
                   records: seq<Type<TypeID>>, pending: seq<Type<TypeID>>)
    requires i < |ts|
    requires records == RecordsUpTo(st, opts, n, ts, i) && pending == Pending(opts, ts, i)
    ensures records + [Record(ts[i], st, opts, n + |pending| + 1)] == RecordsUpTo(st, opts, n, ts, i + 1)
    ensures pending + Allocated(ts[i], opts) == Pending(opts, ts, i + 1)
  {
  }

  /** The placeholders of the first m types are a prefix of those of the first i. */
  lemma {:induction false} PendingPrefix(opts: MarshalOptions, ts: seq<Type<Ref>>, m: nat, i: nat)
    requires m <= i <= |ts|
    ensures Pending(opts, ts, m) <= Pending(opts, ts, i)
    decreases i
  {
    if m < i {
      PendingPrefix(opts, ts, m, i - 1);
    }
  }

  /** A replaced enum at index m owns the placeholder after those of the types before it. */
  lemma PendingAt(opts: MarshalOptions, ts: seq<Type<Ref>>, m: nat)
    requires m < |ts| && Replaced(opts, ts[m])
    ensures var c := CountReplaced(opts, ts, m);
      c < |Pending(opts, ts, |ts|)| && Pending(opts, ts, |ts|)[c] == Placeholder(ts[m])
  {
    PendingPrefix(opts, ts, m + 1, |ts|);
  }

  /** Conversely every placeholder was allocated by a replaced enum. */
  lemma {:induction false} PendingSource(opts: MarshalOptions, ts: seq<Type<Ref>>, i: nat, j: nat)
    requires i <= |ts| && j < |Pending(opts, ts, i)|
    ensures exists m :: 0 <= m < i && Replaced(opts, ts[m]) && j == CountReplaced(opts, ts, m)
  {
    if j < |Pending(opts, ts, i - 1)| {
      PendingSource(opts, ts, i - 1, j);
    } else {
      assert Replaced(opts, ts[i - 1]) && j == CountReplaced(opts, ts, i - 1);
    }
  }

  /**
   * How the type with ID k (1 <= k <= n) comes back in `table`: a replaced
   * 64-bit enum as its union, all of whose members point to its
   * placeholder Int after the added types; any other type as itself with
   * its references as IDs.
   */
  predicate LoadedAs(st: BuilderState, opts: MarshalOptions, ts: seq<Type<Ref>>, table: seq<Type<TypeID>>, k: nat)
    requires 1 <= k <= |ts|
  {
    var t := ts[k - 1];
    if Replaced(opts, t) then
      var p := |ts| + CountReplaced(opts, ts, k - 1) + 1;
      |ts| < p < |table| && table[k] == UnionFor(t, p) && table[p] == Placeholder(t)
    else k < |table| && table[k] == Resolve(t, st)
  }

  /** The record of an added type refers only to IDs in the table. */
  lemma RecordInRange(heap: Heap, st: BuilderState, opts: MarshalOptions, k: nat, p: TypeID, size: nat)
    requires WellFormed(st) && Closed(heap, st) && k < |st.types|
    requires |st.types| <= size && (Replaced(opts, Objects(heap, st)[k]) ==> p <= size)
    ensures GoodRecord(Record(Objects(heap, st)[k], st, opts, p), size + 1)
  {
    var t := Objects(heap, st)[k];
    assert TypeClosed(heap, st, st.types[k]);
    var r := Record(t, st, opts, p);
    if !Replaced(opts, t) {
      forall c | c in r.refs ensures c < size + 1 {
        var i :| 0 <= i < |r.refs| && r.refs[i] == c;
        assert t.refs[i] in t.refs;
      }
    }
  }

  /** The record of an added type is valid in the table Marshal writes. */
  lemma EncodedRecordGood(heap: Heap, st: BuilderState, opts: MarshalOptions, k: nat)
    requires WellFormed(st) && Closed(heap, st)
    requires k < |st.types|
    ensures GoodRecord(Encode(heap, st, opts)[k], |Encode(heap, st, opts)| + 1)
  {
    var objs := Objects(heap, st);
    var p := |st.types| + CountReplaced(opts, objs, k) + 1;
    EncodeRecordAt(heap, st, opts, k);
    if Replaced(opts, objs[k]) {
      PendingAt(opts, objs, k);
    }
    RecordInRange(heap, st, opts, k, p, |Encode(heap, st, opts)|);
  }

  /** A placeholder record is an Int, which refers to nothing. */
  lemma EncodedPlaceholderGood(heap: Heap, st: BuilderState, opts: MarshalOptions, k: nat)
    requires InHeap(heap, st)
    requires |st.types| <= k < |Encode(heap, st, opts)|
    ensures GoodRecord(Encode(heap, st, opts)[k], |Encode(heap, st, opts)| + 1)
  {
    EncodePlaceholderAt(heap, st, opts, k - |st.types|);
  }

  /** Prepending Void shifts every record up by one ID. */
  lemma PrependAt<T>(x: T, s: seq<T>, k: int)
    requires 1 <= k <= |s|
    ensures ([x] + s)[k] == s[k - 1]
  {
  }

  /** A replaced enum with ID k comes back as its union, followed later by its placeholder. */
  lemma TableUnionLoaded(st: BuilderState, opts: MarshalOptions, ts: seq<Type<Ref>>, k: nat)
    requires 1 <= k <= |ts| && Replaced(opts, ts[k - 1])
    ensures LoadedAs(st, opts, ts, [VoidType] + Table(st, opts, ts), k)
  {
    var wire := Table(st, opts, ts);
    var c := CountReplaced(opts, ts, k - 1);
    TableRecordAt(st, opts, ts, k - 1);
    PendingAt(opts, ts, k - 1);
    TablePlaceholderAt(st, opts, ts, c);
    PrependAt(VoidType, wire, k);
    PrependAt(VoidType, wire, |ts| + c + 1);
  }

  /** Any other type with ID k comes back as itself, with its references as IDs. */
  lemma TablePlainLoaded(st: BuilderState, opts: MarshalOptions, ts: seq<Type<Ref>>, k: nat)
    requires 1 <= k <= |ts| && !Replaced(opts, ts[k - 1])
    ensures LoadedAs(st, opts, ts, [VoidType] + Table(st, opts, ts), k)
  {
    TableRecordAt(st, opts, ts, k - 1);
    PrependAt(VoidType, Table(st, opts, ts), k);
  }

  /** The type with ID k comes back as LoadedAs describes. */
  lemma TableLoadedAs(st: BuilderState, opts: MarshalOptions, ts: seq<Type<Ref>>, k: nat)
    requires 1 <= k <= |ts|
    ensures LoadedAs(st, opts, ts, [VoidType] + Table(st, opts, ts), k)
  {
    if Replaced(opts, ts[k - 1]) {
      TableUnionLoaded(st, opts, ts, k);
    } else {
      TablePlainLoaded(st, opts, ts, k);
    }
  }

  /**
   * The round trip of a closed Builder: loading what Marshal writes succeeds,
   * Void is ID 0, and every added type comes back at its ID as LoadedAs
   * describes.
   */
  lemma MarshalLoadRoundTrip(heap: Heap, st: BuilderState, opts: MarshalOptions)
    requires WellFormed(st) && Closed(heap, st)
    ensures var r := Load(Encode(heap, st, opts));
      && r.Loaded?
      && |r.types| == |st.types| + CountReplaced(opts, Objects(heap, st), |st.types|) + 1
      && r.types[0] == VoidType
      && forall k :: 1 <= k <= |st.types| ==> LoadedAs(st, opts, Objects(heap, st), r.types, k)
  {
    var wire := Encode(heap, st, opts);
    forall k | 0 <= k < |wire| ensures GoodRecord(wire[k], |wire| + 1) {
      if k < |st.types| {
        EncodedRecordGood(heap, st, opts, k);
      } else {
        EncodedPlaceholderGood(heap, st, opts, k);
      }
    }
    forall k | 1 <= k <= |st.types| ensures LoadedAs(st, opts, Objects(heap, st), [VoidType] + wire, k) {
      TableLoadedAs(st, opts, Objects(heap, st), k);
    }
  }

  /** A table all of whose records are valid loads as Void followed by those records. */
  lemma LoadGoodTable(wire: seq<Type<TypeID>>)
    requires forall k :: 0 <= k < |wire| ==> GoodRecord(wire[k], |wire| + 1)
    ensures Load(wire) == Loaded([VoidType] + wire)
  {
  }

  /** Void in front of a short table, written out. */
  lemma PrependVoid(wire: seq<Type<TypeID>>)
    requires |wire| <= 3
    ensures |wire| == 2 ==> [VoidType] + wire == [VoidType, wire[0], wire[1]]
    ensures |wire| == 3 ==> [VoidType] + wire == [VoidType, wire[0], wire[1], wire[2]]
  {
  }

  /** The table the Marshal test's Builder writes: its three types with references as IDs. */
  lemma BuilderMarshalWire(heap: Heap, st: BuilderState, typ: Ref, ptr: Ref, td: Ref)
    requires typ in heap && ptr in heap && td in heap
    requires heap[typ] == FooInt
    requires heap[ptr] == Type(KPointer, [typ])
    requires heap[td] == Type(KTypedef("baz"), [typ])
    requires st.types == [typ, ptr, td] && typ in st.ids && st.ids[typ] == 1
    ensures InHeap(heap, st)
    ensures Encode(heap, st, MarshalOptions(false))
      == [FooInt, Type(KPointer, [1]), Type(KTypedef("baz"), [1])]
  {
    var opts := MarshalOptions(false);
    var objs := Objects(heap, st);
    var wire := Encode(heap, st, opts);
    assert IdsOf(st, [typ]) == [1];
    EncodeRecordAt(heap, st, opts, 0);
    assert wire[0] == FooInt;
    EncodeRecordAt(heap, st, opts, 1);
    assert wire[1] == Type(KPointer, [1]);
    EncodeRecordAt(heap, st, opts, 2);
    assert wire[2] == Type(KTypedef("baz"), [1]);
  }

  /** NewBuilder on the Marshal test's list: the three types, the Int with ID 1. */
  lemma BuilderScenarioState(heap: Heap, v: Ref, typ: Ref, ptr: Ref, td: Ref)
    requires v in heap && typ in heap && ptr in heap && td in heap
    requires IsVoid(heap[v]) && !IsVoid(heap[typ]) && !IsVoid(heap[ptr]) && !IsVoid(heap[td])
    requires typ != ptr && typ != td && ptr != td
    ensures var st := AddAll(Empty, heap, [v, typ, ptr, td]);
      st.types == [typ, ptr, td] && typ in st.ids && st.ids[typ] == 1
  {
    var list := [v, typ, ptr, td];
    NewBuilderReproducesList(heap, list);
    assert list[1] == typ;
  }

  /**
   * The Builder of the Marshal test: Void, an Int, a pointer to it and a
   * typedef of it load back as exactly that list, with references as IDs.
   */
  lemma BuilderMarshalScenario(heap: Heap, v: Ref, typ: Ref, ptr: Ref, td: Ref)
    requires v in heap && typ in heap && ptr in heap && td in heap
    requires heap[v] == VoidType
    requires heap[typ] == FooInt
    requires heap[ptr] == Type(KPointer, [typ])
    requires heap[td] == Type(KTypedef("baz"), [typ])
    requires typ != ptr && typ != td && ptr != td
    ensures var st := AddAll(Empty, heap, [v, typ, ptr, td]);
      InHeap(heap, st) &&
      Load(Encode(heap, st, MarshalOptions(false)))
        == Loaded([VoidType, FooInt, Type(KPointer, [1]), Type(KTypedef("baz"), [1])])
  {
    var st := AddAll(Empty, heap, [v, typ, ptr, td]);
    BuilderScenarioState(heap, v, typ, ptr, td);
    BuilderMarshalWire(heap, st, typ, ptr, td);
    LoadGoodTable([FooInt, Type(KPointer, [1]), Type(KTypedef("baz"), [1])]);
    PrependVoid([FooInt, Type(KPointer, [1]), Type(KTypedef("baz"), [1])]);
  }

  /** What a 64-bit enum with two values becomes: a two-member union and its placeholder. */
  lemma Enum64Records(t: Type<Ref>)
    requires t == Type(KEnum("enum64", 8, true, [EnumValue("A", 0), EnumValue("B", 1)]), [])
    ensures UnionFor(t, 2) == Type(KUnion("enum64", 8, [MemberInfo("A", 0), MemberInfo("B", 0)]), [2, 2])
    ensures Placeholder(t) == Type(KInt("enum64_placeholder", 8, Signed), [])
  {
    assert ValueMembers(t.kind.values) == [MemberInfo("A", 0), MemberInfo("B", 0)];
    assert Repeat(2, 2) == [2, 2];
    assert "enum64" + "_placeholder" == "enum64_placeholder";
  }

  /** The table of a Builder holding only a replaced 64-bit enum: its union, then its placeholder. */
  lemma Enum64Wire(heap: Heap, st: BuilderState, e: Ref)
    requires st.types == [e] && e in heap && IsEnum64(heap[e])
    ensures InHeap(heap, st)
    ensures Encode(heap, st, MarshalOptions(true)) == [UnionFor(heap[e], 2), Placeholder(heap[e])]
  {
    var opts := MarshalOptions(true);
    var objs := Objects(heap, st);
    var wire := Encode(heap, st, opts);
    assert CountReplaced(opts, objs, 1) == 1;
    EncodeRecordAt(heap, st, opts, 0);
    assert wire[0] == UnionFor(heap[e], 2);
    PendingAt(opts, objs, 0);
    EncodePlaceholderAt(heap, st, opts, 0);
    assert wire[1] == Placeholder(heap[e]);
  }

  /**
   * The Enum64 test: an 8-byte signed enum {A: 0, B: 1} marshaled with
   * ReplaceEnum64 loads as a union of the same name and size whose members
   * A and B both point to the one placeholder Int, ID 2.
   */
  lemma MarshalEnum64Scenario(heap: Heap, e: Ref)
    requires e in heap
    requires heap[e] == Type(KEnum("enum64", 8, true, [EnumValue("A", 0), EnumValue("B", 1)]), [])
    ensures var st := AddAll(Empty, heap, [e]);
      InHeap(heap, st) &&
      Load(Encode(heap, st, MarshalOptions(true)))
        == Loaded([VoidType,
                   Type(KUnion("enum64", 8, [MemberInfo("A", 0), MemberInfo("B", 0)]), [2, 2]),
                   Type(KInt("enum64_placeholder", 8, Signed), [])])
  {
    var st1 := AddType(Empty, heap, e).0;
    assert st1.types == [e];
    assert [e][1..] == [];
    var st := AddAll(Empty, heap, [e]);
    assert st == AddAll(st1, heap, []);
    Enum64Wire(heap, st, e);
    Enum64Records(heap[e]);
    var u := Type(KUnion("enum64", 8, [MemberInfo("A", 0), MemberInfo("B", 0)]), [2, 2]);
    var p := Type(KInt("enum64_placeholder", 8, Signed), []);
    assert GoodRecord(u, 3);
    LoadGoodTable([u, p]);
    PrependVoid([u, p]);
  }

  /* ---------------------------------------------------------------------
   * The Builder object
   * ------------------------------------------------------------------- */

  class Builder {
    /** The explicitly added types, in order. */
    var types: seq<Ref>
    /** The ID of every explicitly added type. */
    var stableIDs: map<Ref, TypeID>

    function State(): BuilderState
      reads this
    {
      BuilderState(types, stableIDs)
    }

    ghost predicate Valid()
      reads this
    {
      WellFormed(State())
    }

    /** The zero Builder (`var b Builder`). */
    constructor ()
      ensures Valid() && State() == Empty
    {
      types := [];
      stableIDs := map[];
    }

    /** NewBuilder: a Builder to which every type of `list` was added in order. */
    constructor FromTypes(heap: Heap, list: seq<Ref>)
      requires forall r :: r in list ==> r in heap
      ensures Valid() && State() == AddAll(Empty, heap, list)
    {
      types := [];
      stableIDs := map[];
      new;
      var i := 0;
      while i < |list|
        invariant 0 <= i <= |list|
        invariant Valid()
        invariant AddAll(State(), heap, list[i..]) == AddAll(Empty, heap, list)
      {
        assert list[i..][1..] == list[i + 1..];
        var _ := Add(heap, list[i]);
        i := i + 1;
      }
    }

    /** Builder.Add. */
    method Add(heap: Heap, t: Ref) returns (id: TypeID)
      requires Valid() && t in heap
      modifies this
      ensures Valid()
      ensures (State(), id) == AddType(old(State()), heap, t)
    {
      if IsVoid(heap[t]) {
        return 0;
      }
      if t in stableIDs {
        return stableIDs[t];
      }
      types := types + [t];
      id := |types|;
      stableIDs := stableIDs[t := id];
    }

    /**
     * Builder.Marshal: the records of the added types in ID order, then the
     * placeholders allocated for replaced enums. It reads the Builder and
     * writes nothing to it.
     */
    method Marshal(heap: Heap, opts: MarshalOptions) returns (wire: seq<Type<TypeID>>)
      requires Valid() && Closed(heap, State())
      ensures wire == Encode(heap, State(), opts)
    {
      var n := |types|;
      var st := State();
      ghost var objs := Objects(heap, st);
      var records: seq<Type<TypeID>> := [];
      var pending: seq<Type<TypeID>> := [];
      var i := 0;
      while i < n
        invariant 0 <= i <= n
        invariant records == RecordsUpTo(st, opts, n, objs, i)
        invariant pending == Pending(opts, objs, i)
      {
        var t := heap[st.types[i]];
        assert t == objs[i];
        EncodeStep(st, opts, n, objs, i, records, pending);
        var r := Record(t, st, opts, n + |pending| + 1);
        records := records + [r];
        if Replaced(opts, t) {
          pending := pending + [Placeholder(t)];
        }
        i := i + 1;
      }
      wire := records + pending;
    }
  }

  /**
   * The Marshal test's sequence: build from a list, take a copy of the
   * state, marshal, compare. Marshal leaves the state equal to the copy.
   */
  method BuildAndMarshal(heap: Heap, list: seq<Ref>, opts: MarshalOptions)
    returns (wire: seq<Type<TypeID>>, before: BuilderState, after: BuilderState)
    requires forall r :: r in list ==> r in heap
    requires Closed(heap, AddAll(Empty, heap, list))
    ensures before == after == AddAll(Empty, heap, list)
    ensures wire == Encode(heap, before, opts)
  {
    var b := new Builder.FromTypes(heap, list);
    before := b.State();
    wire := b.Marshal(heap, opts);
    after := b.State();
  }
}
