/** The query object: which attributes it reads or writes, the caller's
    result buffers and their sizes, its layout, its fragments and its
    status. Its methods look up buffer slots, copy cells into the buffers,
    validate attributes, layouts and subarrays, and drive the status of an
    asynchronous run. */
module QueryModel {
  import opened Common
  import opened QuerySchema
  import opened CellCopy

  /** A fragment, as far as the query sees it: the status its
      finalisation returns. */
  datatype Fragment = Fragment(finalizeStatus: Outcome<QueryError>)

  /** The status of finalising `fs` in order: the first failure, else Ok. */
  function FirstFailure(fs: seq<Fragment>): (r: Outcome<QueryError>)
    ensures r.Ok? <==> forall k :: 0 <= k < |fs| ==> fs[k].finalizeStatus.Ok?
    ensures r.Fail? ==> exists k :: 0 <= k < |fs| && fs[k].finalizeStatus == r
                                    && forall j :: 0 <= j < k ==> fs[j].finalizeStatus.Ok?
  {
    if fs == [] then Ok
    else
      var init := fs[..|fs| - 1];
      var r := FirstFailure(init);
      assert forall k :: 0 <= k < |init| ==> init[k] == fs[k];
      if r.Fail? then r else fs[|fs| - 1].finalizeStatus
  }

  predicate Distinct(xs: seq<nat>)
  {
    forall i, j :: 0 <= i < j < |xs| ==> xs[i] != xs[j]
  }

  /** The set the duplicate check builds. */
  function Elems(xs: seq<nat>): set<nat>
  {
    set x | x in xs
  }

  /** The set of a sequence is as large as the sequence exactly when no
      entry repeats: the duplicate check by set size detects duplicates. */
  lemma {:induction false} ElemsCard(xs: seq<nat>)
    ensures |Elems(xs)| <= |xs|
    ensures |Elems(xs)| == |xs| <==> Distinct(xs)
    decreases |xs|
  {
    if xs != [] {
      var init := xs[..|xs| - 1];
      var x := xs[|xs| - 1];
      assert xs == init + [x];
      assert Elems(xs) == Elems(init) + {x};
      ElemsCard(init);
      if x in Elems(init) {
        var j :| 0 <= j < |init| && init[j] == x;
        assert xs[j] == xs[|xs| - 1];
      } else {
        assert forall j :: 0 <= j < |init| ==> init[j] != x;
        assert Distinct(xs) <==> Distinct(init);
      }
    }
  }

  /** What `set_layout` stores for the requested layout `l`, or why it
      refuses. */
  function ChosenLayout(s: ArraySchema, t: QueryType, l: Layout): Result<Layout, QueryError>
  {
    if s.isKv then Failure(KeyValueLayout)
    else if t == WriteQuery && !s.dense && (l == ColMajor || l == RowMajor) then Failure(OrderedSparseWrite)
    else if s.dimNum == 1 && l == ColMajor then Success(RowMajor)
    else Success(l)
  }

  /** A stored layout is never column-major for a vector and never
      ordered for a sparse write; it is the requested one except for the
      vector case; and storing it again changes nothing. */
  lemma ChosenLayoutProperties(s: ArraySchema, t: QueryType, l: Layout)
    ensures ChosenLayout(s, t, l).Failure? <==>
              s.isKv || (t == WriteQuery && !s.dense && (l == ColMajor || l == RowMajor))
    ensures ChosenLayout(s, t, l).Success? ==>
      var l' := ChosenLayout(s, t, l).value;
      && !(s.dimNum == 1 && l' == ColMajor)
      && !(t == WriteQuery && !s.dense && (l' == ColMajor || l' == RowMajor))
      && (l' == l || (s.dimNum == 1 && l == ColMajor && l' == RowMajor))
      && ChosenLayout(s, t, l') == Success(l')
  {
  }

  /** The attribute ids after `add_coords`: the coordinates id is
      appended unless it is already present. */
  function WithCoords(ids: seq<nat>, n: nat): seq<nat>
  {
    if n in ids then ids else ids + [n]
  }

  /** After adding the coordinates they are present, the ids before are
      kept in place, adding them twice is adding them once, and appended
      coordinates take the slots past all the others. */
  lemma WithCoordsProperties(s: ArraySchema, ids: seq<nat>)
    ensures var r := WithCoords(ids, |s.attributes|);
      && |s.attributes| in r
      && r[..|ids|] == ids
      && WithCoords(r, |s.attributes|) == r
      && (|s.attributes| !in ids ==>
            FirstIndex(r, |s.attributes|) == |ids| && SlotsBefore(s, r, |ids|) == SlotCount(s, ids))
  {
    var r := WithCoords(ids, |s.attributes|);
    if |s.attributes| !in ids {
      assert r[..|ids|] == ids;
      SlotsPrefixGeneral(s, r, ids, |ids|);
    }
  }

  /** Every name before position `i` is known and differs from `name`. */
  predicate KnownBefore(s: ArraySchema, names: seq<string>, name: string, i: nat)
  {
    i <= |names| && forall j :: 0 <= j < i ==> names[j] != name && AttributeId(s, names[j]).Some?
  }

  /** The loop of `buffer_idx` over the requested attribute names: one
      slot per fixed-size and two per variable-sized attribute before the
      first occurrence of `name`. */
  method SlotSearch(s: ArraySchema, names: seq<string>, name: string) returns (r: Result<nat, QueryError>)
    ensures r == SlotOf(s, names, name)
  {
    var bid := 0;
    var i := 0;
    while i < |names|
      invariant KnownBefore(s, names, name, i)
      invariant bid == SlotsBefore(s, Resolve(s, names[..i]), i)
    {
      var stop;
      stop, r, bid := SlotVisit(s, names, name, i, bid);
      if stop {
        return;
      }
      i := i + 1;
    }
    SlotOfAbsent(s, names, name);
    return Failure(InvalidAttribute(name));
  }

  /** One pass of the `buffer_idx` loop at name `i`: it stops at `name`
      with its slot or at an unknown name with an error, and otherwise
      adds the slots of name `i`. */
  method SlotVisit(s: ArraySchema, names: seq<string>, name: string, i: nat, bid: nat)
    returns (stop: bool, r: Result<nat, QueryError>, bid': nat)
    requires i < |names| && KnownBefore(s, names, name, i)
    requires bid == SlotsBefore(s, Resolve(s, names[..i]), i)
    ensures stop ==> r == SlotOf(s, names, name)
    ensures !stop ==> KnownBefore(s, names, name, i + 1)
                      && bid' == SlotsBefore(s, Resolve(s, names[..i + 1]), i + 1)
  {
    if names[i] == name {
      SlotOfFound(s, names, name, i);
      return true, Success(bid), bid;
    }
    var id := AttributeId(s, names[i]);
    if id.None? {
      SlotOfUnknown(s, names, name, i);
      return true, Failure(UnknownAttribute(names[i])), bid;
    }
    ResolveSnoc(s, names, i);
    return false, Success(bid), bid + Stride(s, id.value);
  }

  /** Every field of a query that its methods may change. */
  datatype QueryState = QueryState(
    queryType: QueryType,
    layout: Layout,
    status: QueryStatus,
    attributes: seq<string>,
    attributeIds: seq<nat>,
    fragments: seq<Fragment>,
    finalized: seq<Fragment>,
    fragmentsInit: bool,
    fragmentsBorrowed: bool,
    hasCallback: bool,
    callbackCalls: nat)

  /** Buffers fit a query on `s` requesting `names`: the schema is
      well formed, every name is known, there are enough slots, slots are
      distinct arrays apart from the sizes array, and no size exceeds its
      array. */
  ghost predicate BuffersFit(s: ArraySchema, names: seq<string>, buffers: seq<array<byte>>,
                             bufferSizes: array<nat>)
    reads bufferSizes
  {
    && SchemaValid(s)
    && (forall j :: 0 <= j < |names| ==> AttributeId(s, names[j]).Some?)
    && SlotCount(s, Resolve(s, names)) <= |buffers| == bufferSizes.Length
    && (forall i, j :: 0 <= i < j < |buffers| ==> buffers[i] != buffers[j])
    && (forall i :: 0 <= i < |buffers| ==> buffers[i] as object != bufferSizes as object)
    && (forall i :: 0 <= i < |buffers| ==> bufferSizes[i] <= buffers[i].Length)
  }

  class Query {
    const schema: ArraySchema
    /** The query this one follows, whose fragments it borrows. */
    const common: Option<Query>
    /** The caller's buffers, slot by slot, and their sizes: on entry to a
        copy the capacity of each buffer, on exit the bytes written. */
    const buffers: seq<array<byte>>
    const bufferSizes: array<nat>
    var queryType: QueryType
    var layout: Layout
    var status: QueryStatus
    /** Requested attribute names, and the ids the schema gives them. */
    var attributes: seq<string>
    var attributeIds: seq<nat>
    var fragments: seq<Fragment>
    /** The fragments finalised so far, in order. */
    var finalized: seq<Fragment>
    var fragmentsInit: bool
    var fragmentsBorrowed: bool
    var hasCallback: bool
    /** How many times the completion callback has run. */
    var callbackCalls: nat

    ghost function State(): QueryState
      reads this
    {
      QueryState(queryType, layout, status, attributes, attributeIds, fragments,
                 finalized, fragmentsInit, fragmentsBorrowed, hasCallback, callbackCalls)
    }

    /** The buffers match the requested attributes. */
    ghost predicate Valid()
      reads this, bufferSizes
    {
      BuffersFit(schema, attributes, buffers, bufferSizes)
    }

    /** A fresh query: in progress, row-major, no fragments. */
    constructor (schema: ArraySchema, queryType: QueryType, attributes: seq<string>,
                 attributeIds: seq<nat>, buffers: seq<array<byte>>, bufferSizes: array<nat>,
                 hasCallback: bool)
      requires BuffersFit(schema, attributes, buffers, bufferSizes)
      ensures Valid()
      ensures this.schema == schema && common.None?
      ensures this.buffers == buffers && this.bufferSizes == bufferSizes
      ensures State() == QueryState(queryType, RowMajor, InProgress, attributes, attributeIds,
                                    [], [], false, false, hasCallback, 0)
    {
      this.schema := schema;
      this.common := None;
      this.buffers := buffers;
      this.bufferSizes := bufferSizes;
      this.queryType := queryType;
      this.layout := RowMajor;
      this.status := InProgress;
      this.attributes := attributes;
      this.attributeIds := attributeIds;
      this.fragments := [];
      this.finalized := [];
      this.fragmentsInit := false;
      this.fragmentsBorrowed := false;
      this.hasCallback := hasCallback;
      this.callbackCalls := 0;
    }

    /** A query following `c`: same schema, type and layout, in progress,
        its fragments not yet initialised. */
    constructor FromCommon(c: Query, attributes: seq<string>, attributeIds: seq<nat>,
                           buffers: seq<array<byte>>, bufferSizes: array<nat>, hasCallback: bool)
      requires BuffersFit(c.schema, attributes, buffers, bufferSizes)
      ensures Valid()
      ensures schema == c.schema && common == Some(c)
      ensures this.buffers == buffers && this.bufferSizes == bufferSizes
      ensures State() == QueryState(c.queryType, c.layout, InProgress, attributes, attributeIds,
                                    [], [], false, false, hasCallback, 0)
    {
      this.schema := c.schema;
      this.common := Some(c);
      this.buffers := buffers;
      this.bufferSizes := bufferSizes;
      this.queryType := c.queryType;
      this.layout := c.layout;
      this.status := InProgress;
      this.attributes := attributes;
      this.attributeIds := attributeIds;
      this.fragments := [];
      this.finalized := [];
      this.fragmentsInit := false;
      this.fragmentsBorrowed := false;
      this.hasCallback := hasCallback;
      this.callbackCalls := 0;
    }

    /** The first buffer slot of `name`: one slot per fixed-size and two
        per variable-sized attribute requested before it. */
    method BufferIdx(name: string) returns (r: Result<nat, QueryError>)
      ensures r == SlotOf(schema, attributes, name)
    {
      r := SlotSearch(schema, attributes, name);
    }

    /** The slot of the coordinates among the attribute ids. When they are
        absent the result is the caller's `init`, an error when that is
        the -1 the caller presets. */
    method CoordsBufferI(init: int) returns (r: Result<int, QueryError>)
      ensures var k := FirstIndex(attributeIds, |schema.attributes|);
        && (k < |attributeIds| ==> r == Success(SlotsBefore(schema, attributeIds, k)))
        && (k == |attributeIds| ==> r == if init == -1 then Failure(NoCoordinatesBuffer) else Success(init))
    {
      var coordsBufferI := init;
      var bufferI := 0;
      var i := 0;
      while i < |attributeIds|
        invariant i <= |attributeIds| && bufferI == SlotsBefore(schema, attributeIds, i)
        invariant forall j :: 0 <= j < i ==> attributeIds[j] != |schema.attributes|
      {
        if attributeIds[i] == |schema.attributes| {
          coordsBufferI := bufferI;
          break;
        }
        bufferI := bufferI + Stride(schema, attributeIds[i]);
        i := i + 1;
      }
      if coordsBufferI == -1 {
        return Failure(NoCoordinatesBuffer);
      }
      return Success(coordsBufferI);
    }

    /** Sets the first slot of every attribute to zero; the values slot of
        a variable-sized attribute keeps its size. */
    method ZeroOutBufferSizes(sizes: array<nat>)
      requires SlotCount(schema, attributeIds) <= sizes.Length
      modifies sizes
      ensures forall k :: 0 <= k < sizes.Length ==>
        sizes[k] == if FirstSlot(schema, attributeIds, |attributeIds|, k) then 0 else old(sizes[k])
    {
      var bufferI := 0;
      var i := 0;
      while i < |attributeIds|
        invariant i <= |attributeIds| && bufferI == SlotsBefore(schema, attributeIds, i)
        invariant forall k :: 0 <= k < sizes.Length ==>
          sizes[k] == if FirstSlot(schema, attributeIds, i, k) then 0 else old(sizes[k])
      {
        SlotsWithinCount(schema, attributeIds, i);
        sizes[bufferI] := 0;
        forall k | 0 <= k < sizes.Length
          ensures FirstSlot(schema, attributeIds, i + 1, k) <==> FirstSlot(schema, attributeIds, i, k) || k == bufferI
        {
          if FirstSlot(schema, attributeIds, i + 1, k) && k != bufferI {
            var j :| 0 <= j < i + 1 && SlotsBefore(schema, attributeIds, j) == k;
            assert j < i;
          }
        }
        bufferI := bufferI + Stride(schema, attributeIds[i]);
        i := i + 1;
      }
    }

    /** Records `size` bytes in slot `b`, no more than it held. */
    method SetSize(b: nat, size: nat)
      requires Valid() && b < |buffers| && size <= bufferSizes[b]
      modifies bufferSizes
      ensures Valid() && bufferSizes[..] == old(bufferSizes[..])[b := size]
    {
      bufferSizes[b] := size;
    }

    /** The fixed-size copy into slot `b`, sized by `bufferSizes[b]`. */
    method CopyFixedAt(b: nat, name: string, a: Attribute, ranges: seq<CellRange>)
      returns (st: Outcome<QueryError>)
      requires Valid() && b < |buffers| && |a.fill| > 0 && FixedRangesOk(name, a, ranges)
      modifies buffers[b], bufferSizes
      ensures Valid()
      ensures st.Ok? <==> |FixedImage(name, a, ranges)| <= old(bufferSizes[b])
      ensures st.Ok? ==> bufferSizes[..] == old(bufferSizes[..])[b := |FixedImage(name, a, ranges)|]
                         && buffers[b][..] == Splice(old(buffers[b][..]), 0, FixedImage(name, a, ranges))
      ensures st.Fail? ==> st == Fail(ResultBufferOverflow(name)) && bufferSizes[..] == old(bufferSizes[..])
                           && exists k: nat :: OverflowsAt(name, a, ranges, k, old(bufferSizes[b]))
                                && buffers[b][..] == Splice(old(buffers[b][..]), 0, FixedImage(name, a, ranges[..k]))
    {
      var ok, size := CopyFixedRanges(buffers[b], bufferSizes[b], name, a, ranges);
      if !ok {
        return Fail(ResultBufferOverflow(name));
      }
      SetSize(b, size);
      return Ok;
    }

    /** Copies the cells of a fixed-size attribute into its buffer. Fails
        before touching anything when the attribute is unknown or not
        requested; fails on the first range that does not fit in the
        buffer's size, keeping the size and the ranges already written;
        otherwise writes the whole image and sets the size to its length. */
    method CopyFixedCells(name: string, ranges: seq<CellRange>) returns (st: Outcome<QueryError>)
      requires Valid()
      requires AttributeId(schema, name).Some? ==>
                 FixedRangesOk(name, AttributeOf(schema, AttributeId(schema, name).value), ranges)
      modifies buffers, bufferSizes
      ensures Valid()
      ensures AttributeId(schema, name).None? ==>
        st == Fail(UnknownAttribute(name)) && bufferSizes[..] == old(bufferSizes[..])
        && forall j :: 0 <= j < |buffers| ==> buffers[j][..] == old(buffers[j][..])
      ensures AttributeId(schema, name).Some? && SlotOf(schema, attributes, name).Failure? ==>
        st == Fail(SlotOf(schema, attributes, name).error) && bufferSizes[..] == old(bufferSizes[..])
        && forall j :: 0 <= j < |buffers| ==> buffers[j][..] == old(buffers[j][..])
      ensures AttributeId(schema, name).Some? && SlotOf(schema, attributes, name).Success? ==>
        var a := AttributeOf(schema, AttributeId(schema, name).value);
        var bid := SlotOf(schema, attributes, name).value;
        var image := FixedImage(name, a, ranges);
        && bid < |buffers|
        && (st.Ok? <==> |image| <= old(bufferSizes[bid]))
        && (st.Ok? ==> bufferSizes[..] == old(bufferSizes[..])[bid := |image|]
                       && buffers[bid][..] == Splice(old(buffers[bid][..]), 0, image))
        && (st.Fail? ==> st == Fail(ResultBufferOverflow(name)) && bufferSizes[..] == old(bufferSizes[..])
                         && exists k: nat :: OverflowsAt(name, a, ranges, k, old(bufferSizes[bid]))
                              && buffers[bid][..] == Splice(old(buffers[bid][..]), 0, FixedImage(name, a, ranges[..k])))
        && forall j :: 0 <= j < |buffers| && j != bid ==> buffers[j][..] == old(buffers[j][..])
    {
      var id := AttributeId(schema, name);
      if id.None? {
        return Fail(UnknownAttribute(name));
      }
      var bid := BufferIdx(name);
      if bid.Failure? {
        return Fail(bid.error);
      }
      var b := bid.value;
      assert attributes[FirstIndex(attributes, name)] == name;
      SlotOfWithinCount(schema, attributes, name);
      st := CopyFixedAt(b, name, AttributeOf(schema, id.value), ranges);
    }

    /** The variable-sized copy into slots `b` (offsets) and `b + 1`
        (values), sized by their entries of `bufferSizes`. */
    method CopyVarAt(b: nat, name: string, fill: seq<byte>, ranges: seq<CellRange>)
      returns (st: Outcome<QueryError>)
      requires Valid() && b + 1 < |buffers| && VarRangesOk(name, ranges)
      modifies buffers[b], buffers[b + 1], bufferSizes
      ensures Valid()
      ensures st.Ok? <==> 8 * |VarCells(name, fill, ranges)| <= old(bufferSizes[b])
                          && |Flatten(VarCells(name, fill, ranges))| <= old(bufferSizes[b + 1])
      ensures st.Ok? ==>
        && bufferSizes[..] == old(bufferSizes[..])[b := 8 * |VarCells(name, fill, ranges)|]
                                                  [b + 1 := |Flatten(VarCells(name, fill, ranges))|]
        && buffers[b][..] == Splice(old(buffers[b][..]), 0, OffsetsImage(VarCells(name, fill, ranges)))
        && buffers[b + 1][..] == Splice(old(buffers[b + 1][..]), 0, Flatten(VarCells(name, fill, ranges)))
      ensures st.Fail? ==> bufferSizes[..] == old(bufferSizes[..])
      ensures st.Fail? ==>
        || (st == Fail(OffsetsBufferOverflow(name)) && 8 * |VarCells(name, fill, ranges)| > old(bufferSizes[b]))
        || (st == Fail(ResultBufferOverflow(name)) && |Flatten(VarCells(name, fill, ranges))| > old(bufferSizes[b + 1]))
    {
      var size, sizeVar;
      st, size, sizeVar := CopyVarRanges(buffers[b], buffers[b + 1], bufferSizes[b], bufferSizes[b + 1],
                                         name, fill, ranges);
      if st.Fail? {
        return st;
      }
      SetSize(b, size);
      SetSize(b + 1, sizeVar);
    }

    /** Copies the cells of a variable-sized attribute into its offsets
        and values buffers. Fails before touching anything when the
        attribute is unknown or not requested, and fails, keeping both
        sizes, when either buffer cannot hold its part of the result;
        otherwise writes the offsets and values and sets both sizes. */
    method CopyVarCells(name: string, ranges: seq<CellRange>) returns (st: Outcome<QueryError>)
      requires Valid()
      requires AttributeId(schema, name).Some? ==>
                 VarSize(schema, AttributeId(schema, name).value) && VarRangesOk(name, ranges)
      modifies buffers, bufferSizes
      ensures Valid()
      ensures AttributeId(schema, name).None? ==>
        st == Fail(UnknownAttribute(name)) && bufferSizes[..] == old(bufferSizes[..])
        && forall j :: 0 <= j < |buffers| ==> buffers[j][..] == old(buffers[j][..])
      ensures AttributeId(schema, name).Some? && SlotOf(schema, attributes, name).Failure? ==>
        st == Fail(SlotOf(schema, attributes, name).error) && bufferSizes[..] == old(bufferSizes[..])
        && forall j :: 0 <= j < |buffers| ==> buffers[j][..] == old(buffers[j][..])
      ensures AttributeId(schema, name).Some? && SlotOf(schema, attributes, name).Success? ==>
        var fill := AttributeOf(schema, AttributeId(schema, name).value).fill;
        var bid := SlotOf(schema, attributes, name).value;
        var cells := VarCells(name, fill, ranges);
        && bid + 1 < |buffers|
        && (st.Ok? <==> 8 * |cells| <= old(bufferSizes[bid]) && |Flatten(cells)| <= old(bufferSizes[bid + 1]))
        && (st.Ok? ==> bufferSizes[..] == old(bufferSizes[..])[bid := 8 * |cells|][bid + 1 := |Flatten(cells)|]
                       && buffers[bid][..] == Splice(old(buffers[bid][..]), 0, OffsetsImage(cells))
                       && buffers[bid + 1][..] == Splice(old(buffers[bid + 1][..]), 0, Flatten(cells)))
        && (st.Fail? ==> bufferSizes[..] == old(bufferSizes[..])
                         && (|| (st == Fail(OffsetsBufferOverflow(name)) && 8 * |cells| > old(bufferSizes[bid]))
                             || (st == Fail(ResultBufferOverflow(name)) && |Flatten(cells)| > old(bufferSizes[bid + 1]))))
        && forall j :: 0 <= j < |buffers| && j != bid && j != bid + 1 ==> buffers[j][..] == old(buffers[j][..])
    {
      var id := AttributeId(schema, name);
      if id.None? {
        return Fail(UnknownAttribute(name));
      }
      var bid := BufferIdx(name);
      if bid.Failure? {
        return Fail(bid.error);
      }
      var b := bid.value;
      assert attributes[FirstIndex(attributes, name)] == name;
      SlotOfWithinCount(schema, attributes, name);
      st := CopyVarAt(b, name, AttributeOf(schema, id.value).fill, ranges);
    }

    /** A write query must not name an attribute twice, and an unordered
        write must name every attribute and the coordinates. */
    method CheckAttributes() returns (st: Outcome<QueryError>)
      ensures st == Fail(DuplicateAttributes) <==> queryType == WriteQuery && !Distinct(attributeIds)
      ensures st == Fail(MissingAttributes) <==>
                queryType == WriteQuery && Distinct(attributeIds) && layout == Unordered
                && |attributeIds| != |schema.attributes| + 1
      ensures st.Ok? || st == Fail(DuplicateAttributes) || st == Fail(MissingAttributes)
    {
      if queryType == WriteQuery {
        var unique: set<nat> := {};
        var i := 0;
        while i < |attributeIds|
          invariant i <= |attributeIds| && unique == Elems(attributeIds[..i])
        {
          assert attributeIds[..i + 1] == attributeIds[..i] + [attributeIds[i]];
          unique := unique + {attributeIds[i]};
          i := i + 1;
        }
        assert attributeIds[..i] == attributeIds;
        ElemsCard(attributeIds);
        if |unique| != |attributeIds| {
          return Fail(DuplicateAttributes);
        }
      }
      if queryType == WriteQuery && layout == Unordered {
        if |attributeIds| != |schema.attributes| + 1 {
          return Fail(MissingAttributes);
        }
      }
      return Ok;
    }

    /** Stores the layout `ChosenLayout` picks, or refuses and keeps the
        old one. */
    method SetLayout(l: Layout) returns (st: Outcome<QueryError>)
      modifies this
      ensures ChosenLayout(schema, queryType, l).Failure? ==>
                st == Fail(ChosenLayout(schema, queryType, l).error) && State() == old(State())
      ensures ChosenLayout(schema, queryType, l).Success? ==>
                st.Ok? && State() == old(State()).(layout := ChosenLayout(schema, queryType, l).value)
    {
      if schema.isKv {
        return Fail(KeyValueLayout);
      }
      if queryType == WriteQuery && !schema.dense && (l == ColMajor || l == RowMajor) {
        return Fail(OrderedSparseWrite);
      }
      if schema.dimNum == 1 && l == ColMajor {
        layout := RowMajor;
      } else {
        layout := l;
      }
      return Ok;
    }

    /** A subarray is accepted when every dimension's bounds lie inside
        the domain; no subarray at all is accepted. */
    method CheckSubarray(subarray: Option<seq<int>>) returns (st: Outcome<QueryError>)
      requires |schema.domain| == 2 * schema.dimNum
      requires subarray.Some? ==> |subarray.value| >= 2 * schema.dimNum
      ensures st.Ok? <==> subarray.None? || SubarrayInDomain(schema, subarray.value)
      ensures st.Fail? ==> st.error == SubarrayOutOfBounds
    {
      if subarray.None? {
        return Ok;
      }
      var sub := subarray.value;
      var i := 0;
      while i < schema.dimNum
        invariant i <= schema.dimNum
        invariant forall j :: 0 <= j < i ==> DomainLo(schema, j) <= sub[2 * j] && sub[2 * j + 1] <= DomainHi(schema, j)
      {
        if sub[2 * i] < DomainLo(schema, i) || sub[2 * i + 1] > DomainHi(schema, i) {
          return Fail(SubarrayOutOfBounds);
        }
        i := i + 1;
      }
      return Ok;
    }

    /** Appends the coordinates id unless it is already requested. */
    method AddCoords()
      modifies this
      ensures State() == old(State()).(attributeIds := WithCoords(old(attributeIds), |schema.attributes|))
    {
      var attributeNum := |schema.attributes|;
      var hasCoords := false;
      var i := 0;
      while i < |attributeIds|
        invariant i <= |attributeIds| && attributeNum !in attributeIds[..i]
      {
        if attributeIds[i] == attributeNum {
          hasCoords := true;
          break;
        }
        assert attributeIds[..i + 1] == attributeIds[..i] + [attributeIds[i]];
        i := i + 1;
      }
      if !hasCoords {
        assert attributeIds[..i] == attributeIds;
        attributeIds := attributeIds + [attributeNum];
      }
    }

    /** Finalises every owned fragment in order, returning the first
        failure; borrowed fragments are left to their owner. The list is
        emptied in both cases. */
    method ClearFragments() returns (st: Outcome<QueryError>)
      modifies this
      ensures st == if old(fragmentsBorrowed) then Ok else FirstFailure(old(fragments))
      ensures State() == old(State()).(fragments := [],
                                       finalized := old(finalized) + if old(fragmentsBorrowed) then [] else old(fragments))
    {
      var ret: Outcome<QueryError> := Ok;
      if !fragmentsBorrowed {
        var log: seq<Fragment> := [];
        var i := 0;
        while i < |fragments|
          invariant i <= |fragments| && log == fragments[..i] && ret == FirstFailure(fragments[..i])
        {
          assert fragments[..i + 1][..i] == fragments[..i];
          var fst := fragments[i].finalizeStatus;
          if fst.Fail? && ret.Ok? {
            ret := fst;
          }
          log := log + [fragments[i]];
          i := i + 1;
        }
        assert fragments[..i] == fragments;
        finalized := finalized + log;
      }
      fragments := [];
      return ret;
    }

    /** `init_fragments`: nothing to do once initialised; otherwise the
        outcome of creating or opening the fragments, which marks them
        initialised when it succeeds. */
    method InitFragments(outcome: Outcome<QueryError>) returns (st: Outcome<QueryError>)
      modifies this
      ensures old(fragmentsInit) ==> st.Ok? && State() == old(State())
      ensures !old(fragmentsInit) ==> st == outcome && State() == old(State()).(fragmentsInit := outcome.Ok?)
    {
      if fragmentsInit {
        return Ok;
      }
      if outcome.Fail? {
        return outcome;
      }
      fragmentsInit := true;
      return Ok;
    }

    /** One asynchronous run. A query following another borrows its
        fragments. A failure to initialise the fragments or the states
        returns at once with the status untouched; otherwise the status
        becomes COMPLETED, and the callback runs, exactly when the read or
        write `run` succeeded, and FAILED when it did not. */
    method AsyncProcess(initFragments: Outcome<QueryError>, initStates: Outcome<QueryError>,
                        run: Outcome<QueryError>) returns (st: Outcome<QueryError>)
      requires common.Some? ==> common.value != this
      modifies this
      ensures var s1 := if common.Some?
                        then old(State()).(fragments := old(common.value.fragments),
                                           fragmentsInit := true, fragmentsBorrowed := true)
                        else old(State());
        if !s1.fragmentsInit && initFragments.Fail? then
          st == initFragments && State() == s1
        else if !s1.fragmentsInit && initStates.Fail? then
          st == initStates && State() == s1.(fragmentsInit := true)
        else
          st == run
          && State() == s1.(fragmentsInit := true,
                            status := if run.Ok? then Completed else Failed,
                            callbackCalls := s1.callbackCalls + if run.Ok? && s1.hasCallback then 1 else 0)
    {
      if common.Some? {
        fragments := common.value.fragments;
        fragmentsInit := true;
        fragmentsBorrowed := true;
      }
      if !fragmentsInit {
        st := InitFragments(initFragments);
        if st.Fail? {
          return;
        }
        if initStates.Fail? {
          return initStates;
        }
      }
      st := run;
      if st.Ok? {
        status := Completed;
        if hasCallback {
          callbackCalls := callbackCalls + 1;
        }
      } else {
        status := Failed;
      }
    }
  }
}
