/** `getInputs` (in `BtSession` and in its legacy twin `Bert`): the token rows of a batch
    laid out in three flat row-major `int` buffers of `count * L` slots, `L` being the
    model's maximum sequence length. Row `i` holds the start id, the row's ids cut to
    `L - 2`, the separator id and zero padding; its mask holds a 1 for each of those
    but the padding; every segment id is 0.

    The three `IntBuffer`s are allocated with the same capacity and always receive
    their `put`s together, so one `position` stands for all three. A `put` at a full
    buffer throws `BufferOverflowException`. */
module Batch {
  import opened Chars
  import opened Wrappers
  import opened Vocabulary

  datatype Inputs = Inputs(
    inputIds: seq<int>,
    inputMask: seq<int>,
    segmentIds: seq<int>,
    count: nat,
    maxSequenceLength: int)

  /** How `getInputs` fails: `IntBuffer.allocate` of a negative capacity
      (`IllegalArgumentException`), a `put` at a full buffer
      (`BufferOverflowException`), or a token missing from the vocabulary (`convert`
      unboxes a null). */
  datatype InputsError = NegativeCapacity | BufferOverflow | UnknownToken

  function Repeat(v: int, n: nat): (r: seq<int>)
    ensures |r| == n && forall i :: 0 <= i < n ==> r[i] == v
  {
    if n == 0 then [] else Repeat(v, n - 1) + [v]
  }

  /** How many of a row's `n` ids are kept: the content loop stops at `n` or at
      `L - 2`, whichever comes first. */
  function Kept(n: nat, L: int): nat
    requires L >= 2
  {
    if n < L - 2 then n else L - 2
  }

  /** The `L` input ids of one row. */
  function RowIds(ids: seq<int>, L: int, startId: int, separatorId: int): seq<int>
    requires L >= 2
  {
    var m := Kept(|ids|, L);
    [startId] + ids[..m] + [separatorId] + Repeat(0, L - 2 - m)
  }

  /** The `L` mask values of a row with `n` ids. */
  function RowMask(n: nat, L: int): seq<int>
    requires L >= 2
  {
    var m := Kept(n, L);
    Repeat(1, m + 2) + Repeat(0, L - 2 - m)
  }

  /** The input ids of all rows, row after row. */
  function LayoutIds(rows: seq<seq<int>>, L: int, startId: int, separatorId: int): seq<int>
    requires L >= 2
  {
    if rows == [] then []
    else
      var n := |rows| - 1;
      LayoutIds(rows[..n], L, startId, separatorId) + RowIds(rows[n], L, startId, separatorId)
  }

  /** The mask values of all rows, row after row. */
  function LayoutMask(rows: seq<seq<int>>, L: int): seq<int>
    requires L >= 2
  {
    if rows == [] then []
    else
      var n := |rows| - 1;
      LayoutMask(rows[..n], L) + RowMask(|rows[n]|, L)
  }

  /** The buffers filled for rows of ids. */
  function Layout(rows: seq<seq<int>>, L: int, startId: int, separatorId: int): Inputs
    requires L >= 2
  {
    Inputs(LayoutIds(rows, L, startId, separatorId), LayoutMask(rows, L),
           Repeat(0, |LayoutIds(rows, L, startId, separatorId)|), |rows|, L)
  }

  /** Each row takes `L` slots of each buffer. */
  lemma {:induction false} LayoutLength(rows: seq<seq<int>>, L: int, startId: int, separatorId: int)
    requires L >= 2
    ensures |LayoutIds(rows, L, startId, separatorId)| == |rows| * L
    ensures |LayoutMask(rows, L)| == |rows| * L
  {
    if rows != [] {
      var n := |rows| - 1;
      LayoutLength(rows[..n], L, startId, separatorId);
      RowLength(rows[n], L, startId, separatorId);
      NextRow(n, L);
      assert |rows| == n + 1;
    }
  }

  /** One more row takes `L` more slots. */
  lemma NextRow(n: nat, L: int)
    ensures (n + 1) * L == n * L + L
  {
  }

  /** A row takes exactly `L` slots. */
  lemma RowLength(ids: seq<int>, L: int, startId: int, separatorId: int)
    requires L >= 2
    ensures |RowIds(ids, L, startId, separatorId)| == L && |RowMask(|ids|, L)| == L
  {
  }

  /** The ids of each row, or nothing when some row has a token missing from the
      vocabulary. */
  function ConvertRows(vocabulary: map<Text, int>, tokens: seq<seq<Text>>): Option<seq<seq<int>>>
  {
    if tokens == [] then Some([])
    else
      var n := |tokens| - 1;
      match (ConvertRows(vocabulary, tokens[..n]), Convert(vocabulary, tokens[n]))
      case (Some(rows), Some(ids)) => Some(rows + [ids])
      case _ => None
  }

  /** The rows convert exactly when each row converts on its own, and then row `k` holds
      the ids of row `k`'s tokens. */
  lemma {:induction false} ConvertRowsEach(vocabulary: map<Text, int>, tokens: seq<seq<Text>>)
    ensures ConvertRows(vocabulary, tokens).Some? <==>
      forall k :: 0 <= k < |tokens| ==> Convert(vocabulary, tokens[k]).Some?
    ensures ConvertRows(vocabulary, tokens).Some? ==>
      var rows := ConvertRows(vocabulary, tokens).value;
      |rows| == |tokens| &&
      forall k :: 0 <= k < |tokens| ==> rows[k] == Convert(vocabulary, tokens[k]).value
  {
    if tokens != [] {
      var n := |tokens| - 1;
      ConvertRowsEach(vocabulary, tokens[..n]);
    }
  }

  /** A row that does not convert makes every longer prefix fail. */
  lemma {:induction false} ConvertRowsFails(vocabulary: map<Text, int>, tokens: seq<seq<Text>>, j: nat, n: nat)
    requires j <= n <= |tokens| && ConvertRows(vocabulary, tokens[..j]).None?
    ensures ConvertRows(vocabulary, tokens[..n]).None?
  {
    if n > j {
      ConvertRowsFails(vocabulary, tokens, j, n - 1);
      assert tokens[..n][..n - 1] == tokens[..n - 1];
    }
  }

  /** How many of `count` rows `getInputs` converts before it stops, the buffers holding
      `capacity` slots each. With `L >= 2` every row fits, so it converts all of them.
      With `L < 2` a row takes two slots (start and separator; no ids, no padding), so
      row `capacity / 2` (0-based) is the last one converted: its first or its second
      `put` overflows. */
  function Reached(count: nat, capacity: nat, L: int): (r: nat)
    ensures r <= count
  {
    if L >= 2 || count <= capacity / 2 then count else capacity / 2 + 1
  }

  /** What `getInputs` produces for the token rows: the buffers when every row converts
      and each row fits; otherwise the first failure, in the order the code meets
      them. */
  function Expected(vocabulary: map<Text, int>, tokens: seq<seq<Text>>, L: int,
                    startId: int, separatorId: int): Result<Inputs, InputsError>
  {
    var capacity := |tokens| * L;
    if tokens == [] then Success(Inputs([], [], [], 0, L))
    else if capacity < 0 then Failure(NegativeCapacity)
    else match ConvertRows(vocabulary, tokens[..Reached(|tokens|, capacity, L)])
      case None => Failure(UnknownToken)
      case Some(rows) =>
        if L < 2 then Failure(BufferOverflow) else Success(Layout(rows, L, startId, separatorId))
  }

  /** Where row `row` (0-based) ends, and that it fits when `L >= 2`. */
  lemma RowBounds(row: nat, count: nat, L: int)
    requires row < count && count * L >= 0
    ensures L * (row + 1) == row * L + L == (row + 1) * L
    ensures L >= 2 ==> row * L + L <= count * L
    ensures L < 2 ==> L * (row + 1) <= 2 * row + 2
  {
    assert count * L == row * L + L + (count - row - 1) * L;
    if L < 2 {
      assert L * (row + 1) <= row + 1;
    }
  }

  lemma SmallRows(count: nat, L: int)
    requires L < 2 && count * L >= 0
    ensures count * L <= count
  {
    if L <= 0 {
      assert count * L <= 0;
    }
  }

  /** The three `java.nio.IntBuffer`s of `getInputs`. They are allocated with one
      capacity and every step `put`s into all three, so they share one `position`. A
      `put` at a full buffer throws `BufferOverflowException`; here it returns false
      and changes nothing. Since the input ids are put first, they are the buffer that
      overflows. */
  class InputBuffers {
    var inputIds: array<int>
    var inputMask: array<int>
    var segmentIds: array<int>
    var position: nat

    ghost predicate Valid()
      reads this
    {
      position <= inputIds.Length &&
      inputMask.Length == inputIds.Length && segmentIds.Length == inputIds.Length &&
      inputIds != inputMask && inputIds != segmentIds && inputMask != segmentIds
    }

    /** `IntBuffer.allocate(capacity)`, three times, for a capacity that is not negative. */
    constructor Allocate(capacity: nat)
      ensures Valid() && position == 0 && inputIds.Length == capacity
      ensures fresh(inputIds) && fresh(inputMask) && fresh(segmentIds)
    {
      inputIds := new int[capacity];
      inputMask := new int[capacity];
      segmentIds := new int[capacity];
      position := 0;
    }

    /** What has been put so far into each buffer. */
    ghost function Ids(): seq<int>
      reads this, inputIds
      requires Valid()
    {
      inputIds[..position]
    }

    ghost function Mask(): seq<int>
      reads this, inputMask
      requires Valid()
    {
      inputMask[..position]
    }

    ghost function Segments(): seq<int>
      reads this, segmentIds
      requires Valid()
    {
      segmentIds[..position]
    }

    /** The buffers hold `rows` laid out: `L` slots per row when `L >= 2`, otherwise the
        two slots of a row that holds no ids. */
    ghost predicate Holds(rows: seq<seq<int>>, L: int, startId: int, separatorId: int)
      reads this, inputIds, inputMask, segmentIds
    {
      Valid() &&
      (L >= 2 ==>
        position == |rows| * L &&
        LaidOut(Ids(), Mask(), Segments(), rows, L, startId, separatorId)) &&
      (L < 2 ==> position == 2 * |rows|)
    }

    /** One step: `id` into the input ids, `mask` into the mask, 0 into the segment ids. */
    method Put(id: int, mask: int) returns (ok: bool)
      requires Valid()
      modifies this`position, inputIds, inputMask, segmentIds
      ensures Valid()
      ensures ok == (old(position) < inputIds.Length)
      ensures position == if ok then old(position) + 1 else old(position)
      ensures ok ==>
        Ids() == old(Ids()) + [id] && Mask() == old(Mask()) + [mask] &&
        Segments() == old(Segments()) + [0]
      ensures !ok ==> unchanged(inputIds, inputMask, segmentIds)
    {
      ok := position < inputIds.Length;
      if ok {
        inputIds[position] := id;
        inputMask[position] := mask;
        segmentIds[position] := 0;
        position := position + 1;
      }
    }

    /** The inner `for` loop of a row: the row's ids up to `L - 2`, each with mask 1. */
    method PutIds(ids: seq<int>, L: int) returns (m: nat)
      requires Valid()
      requires L >= 2 ==> position + Kept(|ids|, L) <= inputIds.Length
      modifies this`position, inputIds, inputMask, segmentIds
      ensures Valid()
      ensures m == if L >= 2 then Kept(|ids|, L) else 0
      ensures position == old(position) + m
      ensures Ids() == old(Ids()) + ids[..m]
      ensures Mask() == old(Mask()) + Repeat(1, m)
      ensures Segments() == old(Segments()) + Repeat(0, m)
    {
      m := 0;
      while m < |ids| && m < L - 2
        invariant Valid()
        invariant m <= |ids| && (L >= 2 ==> m <= Kept(|ids|, L)) && (L < 2 ==> m == 0)
        invariant position == old(position) + m
        invariant Ids() == old(Ids()) + ids[..m]
        invariant Mask() == old(Mask()) + Repeat(1, m)
        invariant Segments() == old(Segments()) + Repeat(0, m)
      {
        var ok := Put(ids[m], 1);
        assert ok;
        assert ids[..m + 1] == ids[..m] + [ids[m]];
        m := m + 1;
      }
    }

    /** The padding loop of a row: zeros, with mask 0, while the position is below
        `limit`. */
    method PutPadding(limit: int) returns (n: nat)
      requires Valid() && limit <= inputIds.Length
      modifies this`position, inputIds, inputMask, segmentIds
      ensures Valid()
      ensures n == if old(position) < limit then limit - old(position) else 0
      ensures position == old(position) + n
      ensures Ids() == old(Ids()) + Repeat(0, n)
      ensures Mask() == old(Mask()) + Repeat(0, n)
      ensures Segments() == old(Segments()) + Repeat(0, n)
    {
      n := 0;
      while position < limit
        invariant Valid()
        invariant position == old(position) + n
        invariant old(position) < limit ==> position <= limit
        invariant old(position) >= limit ==> n == 0
        invariant Ids() == old(Ids()) + Repeat(0, n)
        invariant Mask() == old(Mask()) + Repeat(0, n)
        invariant Segments() == old(Segments()) + Repeat(0, n)
      {
        var ok := Put(0, 0);
        assert ok;
        n := n + 1;
      }
    }

    /** The body of the loop over the rows in `getInputs`, for row `instance`: the
        start id, the ids, the separator id, the padding up to slot `L * instance`. It
        overflows only when `L < 2`, at the start or at the separator. */
    method PutRow(ids: seq<int>, L: int, instance: nat, startId: int, separatorId: int)
      returns (ok: bool)
      requires Valid() && instance >= 1
      requires L >= 2 ==> position + L == L * instance <= inputIds.Length
      requires L < 2 ==> L * instance <= position + 2
      modifies this`position, inputIds, inputMask, segmentIds
      ensures Valid()
      ensures L >= 2 ==>
        ok && position == old(position) + L &&
        Ids() == old(Ids()) + RowIds(ids, L, startId, separatorId) &&
        Mask() == old(Mask()) + RowMask(|ids|, L) &&
        Segments() == old(Segments()) + Repeat(0, L)
      ensures L < 2 ==>
        (ok <==> old(position) + 2 <= inputIds.Length) &&
        (ok ==> position == old(position) + 2)
    {
      ghost var ids0, mask0, segments0 := Ids(), Mask(), Segments();
      ok := Put(startId, 1);
      if !ok {
        return;
      }
      var m := PutIds(ids, L);
      ok := Put(separatorId, 1);
      if !ok {
        return;
      }
      var n := PutPadding(L * instance);
      if L >= 2 {
        IdsAppended(ids0, ids, L, startId, separatorId, m, n);
        MaskAppended(mask0, |ids|, L, m, n);
        SegmentsAppended(segments0, L, m, n);
      }
    }
  }

  lemma {:induction false} RepeatAppend(v: int, a: nat, b: nat)
    ensures Repeat(v, a) + Repeat(v, b) == Repeat(v, a + b)
  {
    if b > 0 {
      RepeatAppend(v, a, b - 1);
    }
  }

  /** The puts of a row, one after another, append the row: its ids, its mask, its
      segment ids. */
  lemma IdsAppended(ids0: seq<int>, ids: seq<int>, L: int, startId: int, separatorId: int,
                    m: nat, n: nat)
    requires L >= 2 && m == Kept(|ids|, L) && n == L - 2 - m
    ensures ids0 + [startId] + ids[..m] + [separatorId] + Repeat(0, n) ==
            ids0 + RowIds(ids, L, startId, separatorId)
  {
    Regroup(ids0, [startId], ids[..m], [separatorId], Repeat(0, n));
  }

  lemma MaskAppended(mask0: seq<int>, count: nat, L: int, m: nat, n: nat)
    requires L >= 2 && m == Kept(count, L) && n == L - 2 - m
    ensures mask0 + [1] + Repeat(1, m) + [1] + Repeat(0, n) == mask0 + RowMask(count, L)
  {
    assert [1] + Repeat(1, m) + [1] == Repeat(1, m + 2);
    Regroup(mask0, [1], Repeat(1, m), [1], Repeat(0, n));
  }

  lemma SegmentsAppended(segments0: seq<int>, L: int, m: nat, n: nat)
    requires L >= 2 && n == L - 2 - m
    ensures segments0 + [0] + Repeat(0, m) + [0] + Repeat(0, n) == segments0 + Repeat(0, L)
  {
    Regroup(segments0, [0], Repeat(0, m), [0], Repeat(0, n));
    assert [0] + Repeat(0, m) + [0] == Repeat(0, m + 2);
    RepeatAppend(0, m + 2, n);
  }


  lemma Regroup(a: seq<int>, b: seq<int>, c: seq<int>, d: seq<int>, e: seq<int>)
    ensures a + b + c + d + e == a + (b + c + d + e)
  {
  }


  /** One more row converts when the rows so far and its own tokens do. */
  lemma ConvertRowsSnoc(vocabulary: map<Text, int>, tokens: seq<seq<Text>>, row: nat)
    requires row < |tokens|
    ensures ConvertRows(vocabulary, tokens[..row + 1]) ==
      match (ConvertRows(vocabulary, tokens[..row]), Convert(vocabulary, tokens[row]))
      case (Some(rows), Some(ids)) => Some(rows + [ids])
      case _ => None
  {
    assert tokens[..row + 1][..row] == tokens[..row];
  }

  /** A row reached with a token missing from the vocabulary makes `getInputs` fail on
      it. */
  lemma ExpectedUnknown(vocabulary: map<Text, int>, tokens: seq<seq<Text>>, L: int,
                        startId: int, separatorId: int, row: nat)
    requires row < |tokens| && |tokens| * L >= 0
    requires L < 2 ==> 2 * row <= |tokens| * L
    requires ConvertRows(vocabulary, tokens[..row + 1]).None?
    ensures Expected(vocabulary, tokens, L, startId, separatorId) == Failure(UnknownToken)
  {
    var reached := Reached(|tokens|, |tokens| * L, L);
    ConvertRowsFails(vocabulary, tokens, row + 1, reached);
  }

  /** With `L < 2`, the row holding slot `count * L` converts and then overflows. */
  lemma ExpectedOverflow(vocabulary: map<Text, int>, tokens: seq<seq<Text>>, L: int,
                         startId: int, separatorId: int, row: nat)
    requires row < |tokens| && L < 2 && 2 * row <= |tokens| * L < 2 * row + 2
    requires ConvertRows(vocabulary, tokens[..row + 1]).Some?
    ensures Expected(vocabulary, tokens, L, startId, separatorId) == Failure(BufferOverflow)
  {
    var reached := Reached(|tokens|, |tokens| * L, L);
    if L <= 0 {
      SmallRows(|tokens|, L);
    }
    assert reached == row + 1;
    assert tokens[..row + 1] == tokens[..reached];
  }

  /** When every row converts and fits, `getInputs` lays them all out. */
  lemma ExpectedLayout(vocabulary: map<Text, int>, tokens: seq<seq<Text>>, L: int,
                       startId: int, separatorId: int, rows: seq<seq<int>>)
    requires L >= 2 && ConvertRows(vocabulary, tokens) == Some(rows)
    ensures Expected(vocabulary, tokens, L, startId, separatorId) ==
      if tokens == [] then Success(Inputs([], [], [], 0, L))
      else Success(Layout(rows, L, startId, separatorId))
  {
    assert Reached(|tokens|, |tokens| * L, L) == |tokens|;
    assert tokens[..|tokens|] == tokens;
  }

  /** One pass of the row loop of `getInputs`: convert row `row` and put it as row
      `instance`. A failure is the one `getInputs` reports; otherwise the buffers hold
      one row more. */
  method AssembleRow(buffers: InputBuffers, vocabulary: map<Text, int>, tokens: seq<seq<Text>>,
                     L: int, startId: int, separatorId: int, row: nat, instance: nat,
                     ghost rows: seq<seq<int>>)
    returns (failure: Option<InputsError>, ghost next: seq<seq<int>>)
    requires row < |tokens| && instance == row + 1 && |rows| == row
    requires buffers.Holds(rows, L, startId, separatorId)
    requires buffers.inputIds.Length == |tokens| * L
    requires ConvertRows(vocabulary, tokens[..row]) == Some(rows)
    requires L < 2 ==> 2 * row <= |tokens| * L
    modifies buffers`position, buffers.inputIds, buffers.inputMask, buffers.segmentIds
    ensures failure.Some? ==>
      Expected(vocabulary, tokens, L, startId, separatorId) == Failure(failure.value)
    ensures failure.None? ==>
      buffers.Holds(next, L, startId, separatorId) && |next| == row + 1 &&
      ConvertRows(vocabulary, tokens[..row + 1]) == Some(next) &&
      (L < 2 ==> 2 * (row + 1) <= |tokens| * L)
  {
    next := rows;
    ConvertRowsSnoc(vocabulary, tokens, row);
    var converted := Convert(vocabulary, tokens[row]);
    if converted.None? {
      ExpectedUnknown(vocabulary, tokens, L, startId, separatorId, row);
      return Some(UnknownToken), next;
    }
    var ids := converted.value;
    RowBounds(row, |tokens|, L);
    ghost var ids0, mask0, segments0 := buffers.Ids(), buffers.Mask(), buffers.Segments();
    var ok := buffers.PutRow(ids, L, instance, startId, separatorId);
    if !ok {
      ExpectedOverflow(vocabulary, tokens, L, startId, separatorId, row);
      return Some(BufferOverflow), next;
    }
    if L >= 2 {
      LaidOutSnoc(ids0, mask0, segments0, rows, ids, L, startId, separatorId);
    }
    next := rows + [ids];
    failure := None;
  }

  /** `getInputs` after tokenizing: allocate the three buffers of `count * L` slots, then
      for each row convert its tokens and put the row. */
  method Assemble(vocabulary: map<Text, int>, tokens: seq<seq<Text>>, L: int,
                  startId: int, separatorId: int)
    returns (r: Result<Inputs, InputsError>)
    ensures r == Expected(vocabulary, tokens, L, startId, separatorId)
  {
    var count := |tokens|;
    if count * L < 0 {
      return Failure(NegativeCapacity);
    }
    var buffers := new InputBuffers.Allocate(count * L);
    var instance := 1;
    ghost var rows: seq<seq<int>> := [];
    for row := 0 to count
      invariant buffers.Holds(rows, L, startId, separatorId)
      invariant buffers.inputIds.Length == count * L
      invariant fresh(buffers.inputIds) && fresh(buffers.inputMask) && fresh(buffers.segmentIds)
      invariant instance == row + 1 && |rows| == row
      invariant ConvertRows(vocabulary, tokens[..row]) == Some(rows)
      invariant L < 2 ==> 2 * row <= count * L
    {
      var failure;
      failure, rows := AssembleRow(buffers, vocabulary, tokens, L, startId, separatorId, row, instance, rows);
      if failure.Some? {
        return Failure(failure.value);
      }
      instance := instance + 1;
    }
    assert tokens[..count] == tokens;
    if L < 2 {
      SmallRows(count, L);
      return Success(Inputs([], [], [], 0, L));
    }
    ExpectedLayout(vocabulary, tokens, L, startId, separatorId, rows);
    assert buffers.position == buffers.inputIds.Length;
    assert buffers.inputIds[..] == buffers.Ids();
    assert buffers.inputMask[..] == buffers.Mask();
    assert buffers.segmentIds[..] == buffers.Segments();
    return Success(Inputs(buffers.inputIds[..], buffers.inputMask[..], buffers.segmentIds[..], count, L));
  }

  /** The buffer contents are those of `rows` laid out. */
  ghost predicate LaidOut(ids: seq<int>, mask: seq<int>, segments: seq<int>,
                          rows: seq<seq<int>>, L: int, startId: int, separatorId: int)
    requires L >= 2
  {
    ids == LayoutIds(rows, L, startId, separatorId) && mask == LayoutMask(rows, L) &&
    segments == Repeat(0, |ids|)
  }

  lemma LaidOutSnoc(ids: seq<int>, mask: seq<int>, segments: seq<int>,
                    rows: seq<seq<int>>, row: seq<int>, L: int, startId: int, separatorId: int)
    requires L >= 2 && LaidOut(ids, mask, segments, rows, L, startId, separatorId)
    ensures LaidOut(ids + RowIds(row, L, startId, separatorId), mask + RowMask(|row|, L),
                    segments + Repeat(0, L), rows + [row], L, startId, separatorId)
  {
    assert (rows + [row])[..|rows|] == rows && (rows + [row])[|rows|] == row;
    RowLength(row, L, startId, separatorId);
    RepeatAppend(0, |ids|, L);
  }

  /** Slot `j` of a row: the start id, then the kept ids, then the separator id, then
      zeros; the mask is 1 up to the separator and 0 on the padding. */
  lemma RowSlots(ids: seq<int>, L: int, startId: int, separatorId: int, j: int)
    requires L >= 2 && 0 <= j < L
    ensures |RowIds(ids, L, startId, separatorId)| == L && |RowMask(|ids|, L)| == L
    ensures var m := Kept(|ids|, L);
      RowIds(ids, L, startId, separatorId)[j] ==
        (if j == 0 then startId else if j <= m then ids[j - 1] else if j == m + 1 then separatorId else 0) &&
      RowMask(|ids|, L)[j] == (if j <= m + 1 then 1 else 0)
  {
  }

  /** Slot `j` of row `i` of the layout is slot `j` of that row. */
  lemma {:induction false} LayoutSlots(rows: seq<seq<int>>, L: int, startId: int, separatorId: int,
                                       i: nat, j: int)
    requires L >= 2 && i < |rows| && 0 <= j < L
    ensures |LayoutIds(rows, L, startId, separatorId)| == |rows| * L
    ensures |LayoutMask(rows, L)| == |rows| * L
    ensures 0 <= i * L + j < |rows| * L
    ensures LayoutIds(rows, L, startId, separatorId)[i * L + j] ==
            RowIds(rows[i], L, startId, separatorId)[j]
    ensures LayoutMask(rows, L)[i * L + j] == RowMask(|rows[i]|, L)[j]
  {
    var n := |rows| - 1;
    LayoutLength(rows, L, startId, separatorId);
    LayoutLength(rows[..n], L, startId, separatorId);
    RowSlots(rows[n], L, startId, separatorId, j);
    assert |rows| * L == n * L + L;
    if i < n {
      LayoutSlots(rows[..n], L, startId, separatorId, i, j);
      assert i * L + j < n * L;
    } else {
      assert i * L + j == n * L + j;
    }
  }

  /** When `getInputs` fails and how: a negative capacity, a token missing from the
      vocabulary in a row it reaches, or a maximum sequence length below 2 (a row needs
      a start and a separator). It succeeds exactly when there are no rows, or when
      `L >= 2` and every token of every row is in the vocabulary. */
  lemma ExpectedOutcome(vocabulary: map<Text, int>, tokens: seq<seq<Text>>, L: int,
                        startId: int, separatorId: int)
    ensures var r := Expected(vocabulary, tokens, L, startId, separatorId);
      (r == Failure(NegativeCapacity) <==> tokens != [] && L < 0) &&
      (r.Success? <==>
        tokens == [] ||
        (L >= 2 && forall k, t :: 0 <= k < |tokens| && t in tokens[k] ==> t in vocabulary))
  {
    var count := |tokens|;
    if count > 0 {
      if L < 0 {
        assert count * L < 0;
      } else {
        assert count * L >= 0;
      }
    }
    if count > 0 && L >= 2 {
      assert count * L >= 0;
      ConvertRowsEach(vocabulary, tokens);
      assert tokens[..count] == tokens;
      if forall k, t :: 0 <= k < count && t in tokens[k] ==> t in vocabulary {
        forall k | 0 <= k < count
          ensures Convert(vocabulary, tokens[k]).Some?
        {
          forall i | 0 <= i < |tokens[k]| ensures tokens[k][i] in vocabulary {
            assert tokens[k][i] in tokens[k];
          }
        }
      } else {
        var k, t :| 0 <= k < count && t in tokens[k] && t !in vocabulary;
        var i :| 0 <= i < |tokens[k]| && tokens[k][i] == t;
        assert Convert(vocabulary, tokens[k]).None?;
      }
    }
  }

  /** The buffers of a successful `getInputs`: `count * L` slots each, row `i` starting
      at slot `i * L` with the start id, then the ids of the row's tokens cut to `L - 2`,
      then the separator id, then zeros; the mask marks all but the padding; the segment
      ids are all 0. */
  lemma ExpectedSlots(vocabulary: map<Text, int>, tokens: seq<seq<Text>>, L: int,
                      startId: int, separatorId: int, i: nat, j: int)
    requires Expected(vocabulary, tokens, L, startId, separatorId).Success?
    requires i < |tokens| && 0 <= j < L
    ensures L >= 2 && Convert(vocabulary, tokens[i]).Some?
    ensures var x := Expected(vocabulary, tokens, L, startId, separatorId).value;
      var ids := Convert(vocabulary, tokens[i]).value;
      var m := if |ids| < L - 2 then |ids| else L - 2;
      x.count == |tokens| && x.maxSequenceLength == L &&
      |x.inputIds| == |tokens| * L && |x.inputMask| == |tokens| * L &&
      |x.segmentIds| == |tokens| * L && 0 <= i * L + j < |tokens| * L &&
      x.inputIds[i * L + j] ==
        (if j == 0 then startId else if j <= m then ids[j - 1] else if j == m + 1 then separatorId else 0) &&
      x.inputMask[i * L + j] == (if j <= m + 1 then 1 else 0) &&
      x.segmentIds[i * L + j] == 0
  {
    var count := |tokens|;
    assert count * L >= 0;
    assert tokens[..count] == tokens;
    var rows := ConvertRows(vocabulary, tokens).value;
    ConvertRowsEach(vocabulary, tokens);
    LayoutSlots(rows, L, startId, separatorId, i, j);
    RowSlots(rows[i], L, startId, separatorId, j);
  }
}
