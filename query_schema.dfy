/** What a query needs of its array schema, and how the query lays out the
    caller's result buffers: one buffer slot per fixed-size attribute and
    two (offsets, then values) per variable-sized one, in the order the
    attributes were given. */
module QuerySchema {
  import opened Common

  /** The name under which the coordinates are requested as an attribute. */
  const COORDS: string := "__coords"

  /** An attribute: its name, whether its cells have variable size, the
      number of values in a fixed-size cell, and the fill value of its
      type (one value; its length is the size of the type). */
  datatype Attribute = Attribute(name: string, varSize: bool, cellValNum: nat, fill: seq<byte>)

  datatype Layout = RowMajor | ColMajor | GlobalOrder | Unordered

  datatype QueryType = ReadQuery | WriteQuery

  datatype QueryStatus = Failed | Completed | InProgress | Incomplete | Uninitialized

  /** The error kinds a query reports. `Propagated(code)` stands for the
      status of a step that is not part of this model (fragment
      initialisation, the read or write itself, fragment finalisation). */
  datatype QueryError =
    | UnknownAttribute(name: string)
    | InvalidAttribute(name: string)
    | ResultBufferOverflow(name: string)
    | OffsetsBufferOverflow(name: string)
    | NoCoordinatesBuffer
    | KeyValueLayout
    | OrderedSparseWrite
    | DuplicateAttributes
    | MissingAttributes
    | SubarrayOutOfBounds
    | Propagated(code: nat)

  /** An array schema: its attributes, the coordinates pseudo-attribute
      (id `|attributes|`), whether the array is dense or a key-value store,
      and its domain, stored flat as [lo0, hi0, lo1, hi1, ...]. */
  datatype ArraySchema = ArraySchema(
    attributes: seq<Attribute>,
    coords: Attribute,
    dense: bool,
    isKv: bool,
    dimNum: nat,
    domain: seq<int>)

  /** A well-formed schema: one [lo, hi] pair per dimension, fixed-size
      coordinates holding one value per dimension, and a non-empty fill
      value for every attribute. */
  ghost predicate SchemaValid(s: ArraySchema)
  {
    && |s.domain| == 2 * s.dimNum
    && !s.coords.varSize
    && s.coords.cellValNum == s.dimNum
    && |s.coords.fill| > 0
    && forall i :: 0 <= i < |s.attributes| ==> |s.attributes[i].fill| > 0
  }

  /** The first index of `x` in `xs`, or `|xs|` when it is absent. */
  function FirstIndex<T(==)>(xs: seq<T>, x: T): (k: nat)
    ensures k <= |xs|
    ensures k < |xs| ==> xs[k] == x
    ensures forall j :: 0 <= j < k ==> xs[j] != x
  {
    if xs == [] then 0
    else if xs[0] == x then 0
    else 1 + FirstIndex(xs[1..], x)
  }

  /** `ArraySchema::attribute_id`: the coordinates name maps to id
      `|attributes|`, any other name to the first attribute carrying it. */
  function AttributeId(s: ArraySchema, name: string): (r: Option<nat>)
    ensures r.Some? ==> r.value <= |s.attributes|
    ensures name == COORDS ==> r == Some(|s.attributes|)
    ensures name != COORDS ==>
      (r.Some? <==> exists j :: 0 <= j < |s.attributes| && s.attributes[j].name == name)
    ensures name != COORDS && r.Some? ==>
      r.value < |s.attributes| && s.attributes[r.value].name == name
      && forall j :: 0 <= j < r.value ==> s.attributes[j].name != name
  {
    if name == COORDS then Some(|s.attributes|)
    else
      var names := seq(|s.attributes|, j requires 0 <= j < |s.attributes| => s.attributes[j].name);
      var k := FirstIndex(names, name);
      if k < |names| then
        assert s.attributes[k].name == names[k];
        assert forall j :: 0 <= j < k ==> s.attributes[j].name == names[j];
        Some(k)
      else
        assert forall j :: 0 <= j < |s.attributes| ==> s.attributes[j].name == names[j] != name;
        None
  }

  /** The attribute with id `id` (the coordinates for `|attributes|`). */
  function AttributeOf(s: ArraySchema, id: nat): Attribute
    requires id <= |s.attributes|
  {
    if id < |s.attributes| then s.attributes[id] else s.coords
  }

  predicate VarSize(s: ArraySchema, id: nat)
  {
    id < |s.attributes| && s.attributes[id].varSize
  }

  /** Buffer slots one attribute uses. */
  function Stride(s: ArraySchema, id: nat): nat
  {
    if VarSize(s, id) then 2 else 1
  }

  /** The slot of the `k`-th attribute id: the slots of those before it. */
  function SlotsBefore(s: ArraySchema, ids: seq<nat>, k: nat): nat
    requires k <= |ids|
  {
    if k == 0 then 0 else SlotsBefore(s, ids, k - 1) + Stride(s, ids[k - 1])
  }

  /** Each attribute's slots come after those of every attribute before
      it, so distinct positions get disjoint slots. */
  lemma {:induction false} SlotsAscend(s: ArraySchema, ids: seq<nat>, j: nat, k: nat)
    requires j < k <= |ids|
    ensures SlotsBefore(s, ids, j) + Stride(s, ids[j]) <= SlotsBefore(s, ids, k)
    decreases k - j
  {
    if k > j + 1 {
      SlotsAscend(s, ids, j, k - 1);
    }
  }

  /** Slots past the last attribute: how many buffers the query has. */
  function SlotCount(s: ArraySchema, ids: seq<nat>): nat
  {
    SlotsBefore(s, ids, |ids|)
  }

  lemma SlotsWithinCount(s: ArraySchema, ids: seq<nat>, k: nat)
    requires k < |ids|
    ensures SlotsBefore(s, ids, k) + Stride(s, ids[k]) <= SlotCount(s, ids)
  {
    SlotsAscend(s, ids, k, |ids|);
  }

  /** The first name the schema does not know, or `|names|`. */
  function FirstUnknown(s: ArraySchema, names: seq<string>): (k: nat)
    ensures k <= |names|
    ensures k < |names| ==> AttributeId(s, names[k]).None?
    ensures forall j :: 0 <= j < k ==> AttributeId(s, names[j]).Some?
  {
    if names == [] then 0
    else if AttributeId(s, names[0]).None? then 0
    else
      var k := FirstUnknown(s, names[1..]);
      assert forall j :: 0 < j <= k ==> names[j] == names[1..][j - 1];
      1 + k
  }

  /** The ids of names the schema knows. */
  function Resolve(s: ArraySchema, names: seq<string>): (ids: seq<nat>)
    requires forall j :: 0 <= j < |names| ==> AttributeId(s, names[j]).Some?
    ensures |ids| == |names|
    ensures forall j :: 0 <= j < |names| ==> ids[j] == AttributeId(s, names[j]).value
  {
    seq(|names|, j requires 0 <= j < |names| => AttributeId(s, names[j]).value)
  }

  /** The buffer slot of `name` among the requested attribute names: the
      slots of the names before its first occurrence. A name before it
      that the schema does not know is an error, and so is a name that was
      not requested. */
  function SlotOf(s: ArraySchema, names: seq<string>, name: string): Result<nat, QueryError>
  {
    var k := FirstIndex(names, name);
    var u := FirstUnknown(s, names);
    if u < k then Failure(UnknownAttribute(names[u]))
    else if k == |names| then Failure(InvalidAttribute(name))
    else Success(SlotsBefore(s, Resolve(s, names[..k]), k))
  }

  /** `SlotOf` at the first occurrence `i` of the name, every name
      before it known. */
  lemma SlotOfFound(s: ArraySchema, names: seq<string>, name: string, i: nat)
    requires i < |names| && names[i] == name
    requires forall j :: 0 <= j < i ==> names[j] != name && AttributeId(s, names[j]).Some?
    ensures SlotOf(s, names, name) == Success(SlotsBefore(s, Resolve(s, names[..i]), i))
  {
    assert FirstIndex(names, name) == i;
  }

  /** `SlotOf` when an unknown name `names[i]` comes before the name. */
  lemma SlotOfUnknown(s: ArraySchema, names: seq<string>, name: string, i: nat)
    requires i < |names| && names[i] != name && AttributeId(s, names[i]).None?
    requires forall j :: 0 <= j < i ==> names[j] != name && AttributeId(s, names[j]).Some?
    ensures SlotOf(s, names, name) == Failure(UnknownAttribute(names[i]))
  {
    assert FirstUnknown(s, names) == i;
  }

  /** `SlotOf` of a name not requested, every requested name known. */
  lemma SlotOfAbsent(s: ArraySchema, names: seq<string>, name: string)
    requires forall j :: 0 <= j < |names| ==> names[j] != name && AttributeId(s, names[j]).Some?
    ensures SlotOf(s, names, name) == Failure(InvalidAttribute(name))
  {
    assert FirstIndex(names, name) == |names|;
  }

  /** A requested name that every earlier name resolves before has a
      slot, and that slot lies within the buffers of the query. */
  lemma SlotOfWithinCount(s: ArraySchema, names: seq<string>, name: string)
    requires forall j :: 0 <= j < |names| ==> AttributeId(s, names[j]).Some?
    requires name in names
    ensures SlotOf(s, names, name).Success?
    ensures SlotOf(s, names, name).value + Stride(s, AttributeId(s, name).value)
            <= SlotCount(s, Resolve(s, names))
  {
    var k := FirstIndex(names, name);
    var ids := Resolve(s, names);
    assert Resolve(s, names[..k]) == ids[..k];
    SlotsPrefix(s, ids, k);
    SlotsWithinCount(s, ids, k);
  }

  /** Slots depend only on the ids before the position. */
  lemma {:induction false} SlotsPrefix(s: ArraySchema, ids: seq<nat>, k: nat)
    requires k <= |ids|
    ensures SlotsBefore(s, ids[..k], k) == SlotsBefore(s, ids, k)
    decreases k
  {
    if k > 0 {
      assert ids[..k - 1] == ids[..k][..k - 1];
      SlotsPrefixGeneral(s, ids[..k], ids, k - 1);
    }
  }

  lemma {:induction false} SlotsPrefixGeneral(s: ArraySchema, a: seq<nat>, b: seq<nat>, k: nat)
    requires k <= |a| && k <= |b| && a[..k] == b[..k]
    ensures SlotsBefore(s, a, k) == SlotsBefore(s, b, k)
    decreases k
  {
    if k > 0 {
      assert a[k - 1] == a[..k][k - 1] == b[..k][k - 1] == b[k - 1];
      assert a[..k - 1] == a[..k][..k - 1] && b[..k - 1] == b[..k][..k - 1];
      SlotsPrefixGeneral(s, a, b, k - 1);
    }
  }

  /** `slot` is the first slot of one of the first `n` attributes. */
  ghost predicate FirstSlot(s: ArraySchema, ids: seq<nat>, n: nat, slot: nat)
    requires n <= |ids|
  {
    exists j :: 0 <= j < n && SlotsBefore(s, ids, j) == slot
  }

  /** The second (values) slot of a variable-sized attribute is nobody's
      first slot. */
  lemma ValuesSlotIsNotFirst(s: ArraySchema, ids: seq<nat>, k: nat)
    requires k < |ids| && VarSize(s, ids[k])
    ensures !FirstSlot(s, ids, |ids|, SlotsBefore(s, ids, k) + 1)
  {
    forall j | 0 <= j < |ids| ensures SlotsBefore(s, ids, j) != SlotsBefore(s, ids, k) + 1 {
      if j < k {
        SlotsAscend(s, ids, j, k);
      } else if j > k {
        SlotsAscend(s, ids, k, j);
      }
    }
  }

  /** One more known name adds its stride to the slots. */
  lemma ResolveSnoc(s: ArraySchema, names: seq<string>, i: nat)
    requires i < |names| && forall j :: 0 <= j <= i ==> AttributeId(s, names[j]).Some?
    ensures SlotsBefore(s, Resolve(s, names[..i + 1]), i + 1)
            == SlotsBefore(s, Resolve(s, names[..i]), i) + Stride(s, AttributeId(s, names[i]).value)
  {
    var a := Resolve(s, names[..i + 1]);
    var b := Resolve(s, names[..i]);
    assert a[..i] == b[..i];
    SlotsPrefixGeneral(s, a, b, i);
  }

  /** Requested names and their ids put the coordinates in the same slot:
      the name-based lookup of the coordinates name and the id-based
      search for the coordinates id agree. */
  lemma CoordsSlotAgrees(s: ArraySchema, names: seq<string>)
    requires forall j :: 0 <= j < |names| ==> AttributeId(s, names[j]).Some?
    ensures var ids := Resolve(s, names);
            var k := FirstIndex(ids, |s.attributes|);
            SlotOf(s, names, COORDS)
            == if k < |ids| then Success(SlotsBefore(s, ids, k)) else Failure(InvalidAttribute(COORDS))
  {
    var ids := Resolve(s, names);
    var n := |s.attributes|;
    forall j | 0 <= j < |names| ensures (names[j] == COORDS <==> ids[j] == n) {
      if names[j] != COORDS {
        assert AttributeId(s, names[j]).value < n;
      }
    }
    var k1 := FirstIndex(names, COORDS);
    var k2 := FirstIndex(ids, n);
    if k1 < |names| {
      assert Resolve(s, names[..k1]) == ids[..k1];
      SlotsPrefix(s, ids, k1);
    }
  }

  /** Lower and upper bound of dimension `i` of the domain. */
  function DomainLo(s: ArraySchema, i: nat): int
    requires 2 * i + 1 < |s.domain|
  {
    s.domain[2 * i]
  }

  function DomainHi(s: ArraySchema, i: nat): int
    requires 2 * i + 1 < |s.domain|
  {
    s.domain[2 * i + 1]
  }

  /** Every bound of `subarray` lies within the domain of its dimension. */
  predicate SubarrayInDomain(s: ArraySchema, subarray: seq<int>)
    requires |s.domain| == 2 * s.dimNum && |subarray| >= 2 * s.dimNum
  {
    forall i :: 0 <= i < s.dimNum ==>
      DomainLo(s, i) <= subarray[2 * i] && subarray[2 * i + 1] <= DomainHi(s, i)
  }

  /** The bounds check does not compare a dimension's lower bound with its
      upper one: an inverted range inside the domain passes. */
  lemma InvertedSubarrayInDomain()
    ensures SubarrayInDomain(ArraySchema([], Attribute(COORDS, false, 1, [0]), true, false, 1, [0, 9]), [7, 2])
  {
  }
}
