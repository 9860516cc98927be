// Drag data through a parcel: what is packed, and what comes out at the other end.
module DragDataPackers {
  import opened Common
  import opened Bytes
  import opened Parcels

  const SHADOW_NUM_LIMIT: int := 3
  const MAX_BUF_SIZE: int := 1024

  /** The content of a pixel map; its two encodings are those of a codec this model knows nothing else about. */
  datatype PixelMap = PixelMap(content: nat)

  datatype Codec = Codec(
    marshal: PixelMap -> Option<seq<Token>>,
    unmarshal: seq<Token> -> Option<(PixelMap, int)>,    // the map, and how many values it consumed
    encodeTlv: PixelMap -> Option<seq<Byte>>,
    decodeTlv: seq<Byte> -> Option<PixelMap>)

  /** Each encoding can be read back, whatever follows it in the parcel. */
  ghost predicate Lawful(c: Codec)
  {
    && (forall p, rest: seq<Token> :: c.marshal(p).Some? ==>
          c.unmarshal(c.marshal(p).value + rest) == Some((p, |c.marshal(p).value|)))
    && (forall ts: seq<Token> :: c.unmarshal(ts).Some? ==> 0 <= c.unmarshal(ts).value.1 <= |ts|)
    && (forall p :: c.encodeTlv(p).Some? ==> c.decodeTlv(c.encodeTlv(p).value) == Some(p))
  }

  datatype Shadow = Shadow(pixelMap: Option<PixelMap>, x: Int32, y: Int32)

  datatype DragData = DragData(
    shadowInfos: seq<Shadow>, buffer: seq<Byte>, udKey: string, extraInfo: string, filterInfo: string,
    sourceType: Int32, dragNum: Int32, pointerId: Int32, displayX: Int32, displayY: Int32, displayId: Int32,
    mainWindow: Int32, hasCanceledAnimation: bool, hasCoordinateCorrected: bool, summarys: map<string, int>,
    isDragDelay: bool)

  /** A default-constructed record. */
  const BLANK: DragData := DragData([], [], "", "", "", -1, -1, -1, -1, -1, -1, -1, false, false, map[], false)

  // ----- Packing -----

  function PackPixelMap(c: Codec, p: PixelMap, isCross: bool): Option<seq<Token>>
  {
    if isCross then
      var e := c.encodeTlv(p);
      if e.None? then None else Some([TBytes(e.value)])
    else
      c.marshal(p)
  }

  function PackShadow(c: Codec, s: Shadow, isCross: bool): Option<seq<Token>>
  {
    if s.pixelMap.None? then None
    else
      var p := PackPixelMap(c, s.pixelMap.value, isCross);
      if p.None? then None else Some(p.value + [TInt32(s.x), TInt32(s.y)])
  }

  function PackShadows(c: Codec, ss: seq<Shadow>, isCross: bool): Option<seq<Token>>
  {
    if ss == [] then Some([])
    else
      var first := PackShadow(c, ss[0], isCross);
      var others := PackShadows(c, ss[1..], isCross);
      if first.None? || others.None? then None else Some(first.value + others.value)
  }

  /** The shadows that travel: the first three. */
  function Cut(ss: seq<Shadow>): seq<Shadow>
  {
    if |ss| > SHADOW_NUM_LIMIT then ss[..SHADOW_NUM_LIMIT] else ss
  }

  function PackFields(d: DragData): seq<Token>
  {
    [TBytes(d.buffer), TString(d.udKey), TString(d.extraInfo), TString(d.filterInfo)] + NumberTokens(Numbers(d)) +
    [TBool(d.hasCanceledAnimation), TBool(d.hasCoordinateCorrected)]
  }

  /** The seven numbers, in the order in which they are written. */
  function Numbers(d: DragData): seq<Int32>
  {
    [d.sourceType, d.dragNum, d.pointerId, d.displayX, d.displayY, d.displayId, d.mainWindow]
  }

  function NumberTokens(ns: seq<Int32>): seq<Token>
  {
    if ns == [] then [] else [TInt32(ns[0])] + NumberTokens(ns[1..])
  }

  /** `keys` lists the keys of `m`, each once: the order in which a `std::map` is walked. */
  ghost predicate Lists(keys: seq<string>, m: map<string, int>)
  {
    && (forall k :: k in keys <==> k in m)
    && (forall i, j :: 0 <= i < j < |keys| ==> keys[i] != keys[j])
  }

  function PackEntries(keys: seq<string>, m: map<string, int>): seq<Token>
    requires forall k <- keys :: k in m
  {
    if keys == [] then [] else [TString(keys[0]), TInt64(m[keys[0]])] + PackEntries(keys[1..], m)
  }

  function PackSummary(keys: seq<string>, m: map<string, int>): seq<Token>
    requires forall k <- keys :: k in m
  {
    [TInt32(ToInt32(|keys|))] + PackEntries(keys, m)
  }

  /** Everything `Marshalling` must write to succeed; the delay flag comes after it and may get lost. */
  function Pack(c: Codec, d: DragData, keys: seq<string>, isCross: bool): Option<seq<Token>>
    requires forall k <- keys :: k in d.summarys
  {
    var shadows := PackShadows(c, Cut(d.shadowInfos), isCross);
    if d.shadowInfos == [] || shadows.None? then None
    else Some([TInt32(|Cut(d.shadowInfos)|)] + shadows.value + PackFields(d) + PackSummary(keys, d.summarys))
  }

  /** The first three shadows travel, or all if there are fewer. */
  lemma CutIsPrefix(ss: seq<Shadow>)
    ensures Cut(ss) <= ss && |Cut(ss)| == Min(|ss|, 3)
  {
  }

  predicate Encodable(c: Codec, s: Shadow, isCross: bool)
  {
    s.pixelMap.Some? && if isCross then c.encodeTlv(s.pixelMap.value).Some? else c.marshal(s.pixelMap.value).Some?
  }

  lemma {:induction false} ShadowsPackIff(c: Codec, ss: seq<Shadow>, isCross: bool)
    ensures PackShadows(c, ss, isCross).Some? <==> forall s <- ss :: Encodable(c, s, isCross)
    decreases |ss|
  {
    if ss != [] {
      ShadowsPackIff(c, ss[1..], isCross);
      assert PackShadow(c, ss[0], isCross).Some? <==> Encodable(c, ss[0], isCross);
      assert ss == [ss[0]] + ss[1..];
    }
  }

  /** A record can be packed if and only if it has a shadow, and each of its first three can be encoded. */
  lemma PacksIff(c: Codec, d: DragData, keys: seq<string>, isCross: bool)
    requires forall k <- keys :: k in d.summarys
    ensures Pack(c, d, keys, isCross).Some? <==>
            d.shadowInfos != [] && forall i :: 0 <= i < Min(|d.shadowInfos|, 3) ==> Encodable(c, d.shadowInfos[i], isCross)
  {
    hide PackShadows, Encodable;
    var ss := Cut(d.shadowInfos);
    CutIsPrefix(d.shadowInfos);
    ShadowsPackIff(c, ss, isCross);
    assert forall i :: 0 <= i < |ss| ==> ss[i] == d.shadowInfos[i] && ss[i] in ss;
  }

  /** The plain fields on the wire, in the order in which the other end expects them. */
  lemma FieldsLayout(d: DragData)
    ensures PackFields(d) ==
            [TBytes(d.buffer), TString(d.udKey), TString(d.extraInfo), TString(d.filterInfo),
             TInt32(d.sourceType), TInt32(d.dragNum), TInt32(d.pointerId), TInt32(d.displayX), TInt32(d.displayY),
             TInt32(d.displayId), TInt32(d.mainWindow), TBool(d.hasCanceledAnimation), TBool(d.hasCoordinateCorrected)]
  {
    var ns := Numbers(d);
    NumberTokensAt(ns);
    assert NumberTokens(ns) == [TInt32(ns[0]), TInt32(ns[1]), TInt32(ns[2]), TInt32(ns[3]), TInt32(ns[4]), TInt32(ns[5]), TInt32(ns[6])];
  }

  lemma {:induction false} NumberTokensAt(ns: seq<Int32>)
    ensures |NumberTokens(ns)| == |ns| && forall i :: 0 <= i < |ns| ==> NumberTokens(ns)[i] == TInt32(ns[i])
  {
    if ns != [] {
      NumberTokensAt(ns[1..]);
    }
  }

  // ----- Unpacking -----

  datatype Read<T> = Fail | Got(value: T, rest: seq<Token>)
  {
    predicate IsFailure() { Fail? }
    function PropagateFailure<U>(): Read<U> requires Fail? { Fail }
    function Extract(): (T, seq<Token>) requires Got? { (value, rest) }
  }

  function UnpackPixelMap(c: Codec, ts: seq<Token>, isCross: bool): Read<PixelMap>
  {
    if isCross then
      if ts == [] || !ts[0].TBytes? then Fail
      else
        var p := c.decodeTlv(ts[0].bytes);
        if p.None? then Fail else Got(p.value, ts[1..])
    else
      var p := c.unmarshal(ts);
      if p.None? || !(0 <= p.value.1 <= |ts|) then Fail else Got(p.value.0, ts[p.value.1..])
  }

  function UnpackShadow(c: Codec, ts: seq<Token>, isCross: bool): Read<Shadow>
  {
    var (p, rest) :- UnpackPixelMap(c, ts, isCross);
    if |rest| >= 2 && rest[0].TInt32? && rest[1].TInt32? then Got(Shadow(Some(p), rest[0].i, rest[1].i), rest[2..]) else Fail
  }

  /** `n` more shadows, pushed behind those already read. */
  function UnpackShadows(c: Codec, n: nat, ts: seq<Token>, isCross: bool, before: seq<Shadow>): Read<seq<Shadow>>
    decreases n
  {
    if n == 0 then Got(before, ts)
    else
      var (first, rest) :- UnpackShadow(c, ts, isCross);
      UnpackShadows(c, n - 1, rest, isCross, before + [first])
  }

  /** Buffer and strings, numbers, flags: the three stretches of plain fields. */
  function UnpackTexts(ts: seq<Token>): Read<(seq<Byte>, string, string, string)>
  {
    if |ts| >= 4 && ts[0].TBytes? && ts[1].TString? && ts[2].TString? && ts[3].TString?
    then Got((ts[0].bytes, ts[1].s, ts[2].s, ts[3].s), ts[4..])
    else Fail
  }

  function UnpackNumbers(n: nat, ts: seq<Token>): (r: Read<seq<Int32>>)
    ensures r.Got? ==> |r.value| == n
  {
    if n == 0 then Got([], ts)
    else if ts == [] || !ts[0].TInt32? then Fail
    else
      var (others, rest) :- UnpackNumbers(n - 1, ts[1..]);
      Got([ts[0].i] + others, rest)
  }

  function UnpackFlags(ts: seq<Token>): Read<(bool, bool)>
  {
    if |ts| >= 2 && ts[0].TBool? && ts[1].TBool? then Got((ts[0].b, ts[1].b), ts[2..]) else Fail
  }

  /** The plain fields, read into a record that has the given shadows. */
  function UnpackFields(shadows: seq<Shadow>, ts: seq<Token>): Read<DragData>
  {
    var (texts, rest) :- UnpackTexts(ts);
    var (numbers, rest') :- UnpackNumbers(7, rest);
    var (flags, rest'') :- UnpackFlags(rest');
    Got(WithFields(shadows, texts, numbers, flags), rest'')
  }

  function WithFields(shadows: seq<Shadow>, texts: (seq<Byte>, string, string, string), ns: seq<Int32>, flags: (bool, bool)): DragData
    requires |ns| == 7
  {
    DragData(shadows, texts.0, texts.1, texts.2, texts.3, ns[0], ns[1], ns[2], ns[3], ns[4], ns[5], ns[6],
             flags.0, flags.1, map[], BLANK.isDragDelay)
  }

  function UnpackEntries(n: nat, ts: seq<Token>, m: map<string, int>): Read<map<string, int>>
  {
    if n == 0 then Got(m, ts)
    else if |ts| >= 2 && ts[0].TString? && ts[1].TInt64? then UnpackEntries(n - 1, ts[2..], m[ts[0].s := ts[1].n])
    else Fail
  }

  function UnpackSummary(ts: seq<Token>): Read<map<string, int>>
  {
    if ts == [] || !ts[0].TInt32? then Fail
    else
      var size := ts[0].i;
      if size < 0 || size > SizeOf(ts) || size > MAX_BUF_SIZE then Fail else UnpackEntries(size, ts[1..], map[])
  }

  function UnpackDelay(d: DragData, ts: seq<Token>, isCross: bool): Read<DragData>
  {
    if !isCross && ts != [] && ts[0].TBool? then Got(d.(isDragDelay := ts[0].b), ts[1..]) else Got(d, ts)
  }

  function Unpack(c: Codec, ts: seq<Token>, isCross: bool): Read<DragData>
  {
    if ts == [] || !ts[0].TInt32? || ts[0].i <= 0 || ts[0].i > SHADOW_NUM_LIMIT then Fail
    else
      var (shadows, rest) :- UnpackShadows(c, ts[0].i, ts[1..], isCross, []);
      var (d, rest') :- UnpackFields(shadows, rest);
      var (summarys, rest'') :- UnpackSummary(rest');
      UnpackDelay(d.(summarys := summarys), rest'', isCross)
  }

  // ----- What one side packs, the other unpacks -----

  lemma ShadowRoundTrip(c: Codec, s: Shadow, isCross: bool, rest: seq<Token>)
    requires Lawful(c) && PackShadow(c, s, isCross).Some?
    ensures UnpackShadow(c, PackShadow(c, s, isCross).value + rest, isCross) == Got(s, rest)
  {
    var p := PackPixelMap(c, s.pixelMap.value, isCross).value;
    var tail := [TInt32(s.x), TInt32(s.y)] + rest;
    assert PackShadow(c, s, isCross).value + rest == p + tail;
    assert (p + tail)[|p|..] == tail && tail[2..] == rest;
  }

  lemma {:induction false} ShadowsRoundTrip(c: Codec, ss: seq<Shadow>, isCross: bool, rest: seq<Token>, before: seq<Shadow>)
    requires Lawful(c) && PackShadows(c, ss, isCross).Some?
    ensures UnpackShadows(c, |ss|, PackShadows(c, ss, isCross).value + rest, isCross, before) == Got(before + ss, rest)
    decreases |ss|
  {
    hide Lawful, PackShadow, UnpackShadow;
    if ss == [] {
      assert [] + rest == rest && before + ss == before;
    } else {
      var first, others := PackShadow(c, ss[0], isCross).value, PackShadows(c, ss[1..], isCross).value;
      assert first + others + rest == first + (others + rest);
      ShadowRoundTrip(c, ss[0], isCross, others + rest);
      ShadowsRoundTrip(c, ss[1..], isCross, rest, before + [ss[0]]);
      assert before + [ss[0]] + ss[1..] == before + ss;
    }
  }

  lemma {:induction false} EntriesRoundTrip(keys: seq<string>, m: map<string, int>, done: map<string, int>, rest: seq<Token>)
    requires forall k <- keys :: k in m
    requires forall k :: k in m <==> k in done || k in keys
    requires forall k <- done :: done[k] == m[k]
    ensures UnpackEntries(|keys|, PackEntries(keys, m) + rest, done) == Got(m, rest)
  {
    hide PackEntries, UnpackEntries;
    EntryRoundTrip(keys, m, done, rest);
    if keys == [] {
      assert done == m;
    } else {
      EntriesRoundTrip(keys[1..], m, done[keys[0] := m[keys[0]]], rest);
    }
  }

  /** Reading the first of the entries that were written, or none. */
  lemma {:induction false} EntryRoundTrip(keys: seq<string>, m: map<string, int>, done: map<string, int>, rest: seq<Token>)
    requires forall k <- keys :: k in m
    ensures UnpackEntries(|keys|, PackEntries(keys, m) + rest, done) ==
            if keys == [] then Got(done, rest)
            else UnpackEntries(|keys| - 1, PackEntries(keys[1..], m) + rest, done[keys[0] := m[keys[0]]])
  {
    var ts := PackEntries(keys, m) + rest;
    if keys == [] {
      assert ts == rest;
    } else {
      assert ts == [TString(keys[0]), TInt64(m[keys[0]])] + (PackEntries(keys[1..], m) + rest);
      assert ts[2..] == PackEntries(keys[1..], m) + rest;
    }
  }

  lemma {:induction false} EntriesCount(keys: seq<string>, m: map<string, int>)
    requires forall k <- keys :: k in m
    ensures |PackEntries(keys, m)| == 2 * |keys|
  {
    if keys != [] {
      EntriesCount(keys[1..], m);
    }
  }

  /** The guard on the readable bytes never rejects what `Marshalling` wrote; the limit of 1024 entries may. */
  lemma SummaryRoundTrip(keys: seq<string>, m: map<string, int>, rest: seq<Token>)
    requires Lists(keys, m) && |keys| < 0x8000_0000
    ensures UnpackSummary(PackSummary(keys, m) + rest) == if |keys| <= MAX_BUF_SIZE then Got(m, rest) else Fail
  {
    var ts := PackSummary(keys, m) + rest;
    assert ts[1..] == PackEntries(keys, m) + rest;
    EntriesCount(keys, m);
    SizeOfCount(ts);
    EntriesRoundTrip(keys, m, map[], rest);
  }

  lemma {:induction false} NumbersRoundTrip(ns: seq<Int32>, rest: seq<Token>)
    ensures UnpackNumbers(|ns|, NumberTokens(ns) + rest) == Got(ns, rest)
  {
    if ns == [] {
      assert NumberTokens(ns) + rest == rest;
    } else {
      assert (NumberTokens(ns) + rest)[1..] == NumberTokens(ns[1..]) + rest;
      NumbersRoundTrip(ns[1..], rest);
      assert [ns[0]] + ns[1..] == ns;
    }
  }

  lemma FieldsRoundTrip(d: DragData, shadows: seq<Shadow>, rest: seq<Token>)
    ensures UnpackFields(shadows, PackFields(d) + rest) ==
            Got(d.(shadowInfos := shadows, summarys := map[], isDragDelay := false), rest)
  {
    hide UnpackNumbers, NumberTokens;
    var ts, flags := PackFields(d) + rest, [TBool(d.hasCanceledAnimation), TBool(d.hasCoordinateCorrected)];
    var numbers := NumberTokens(Numbers(d));
    assert ts[4..] == numbers + (flags + rest);
    assert (flags + rest)[2..] == rest;
    NumbersRoundTrip(Numbers(d), flags + rest);
  }

  /** The record that arrives: the first three shadows, and the delay flag only within one device. */
  function Arriving(d: DragData, delay: bool): DragData
  {
    d.(shadowInfos := Cut(d.shadowInfos), isDragDelay := delay)
  }

  lemma PackedRoundTrip(c: Codec, d: DragData, keys: seq<string>, isCross: bool, rest: seq<Token>)
    requires Lawful(c) && Lists(keys, d.summarys) && |keys| < 0x8000_0000
    requires Pack(c, d, keys, isCross).Some?
    ensures Unpack(c, Pack(c, d, keys, isCross).value + rest, isCross) ==
            if |keys| <= MAX_BUF_SIZE then UnpackDelay(Arriving(d, false), rest, isCross) else Fail
  {
    var ss := Cut(d.shadowInfos);
    assert 1 <= |ss| <= SHADOW_NUM_LIMIT;
    hide Lawful, Lists, Cut, PackShadows, PackFields, PackSummary, UnpackShadows, UnpackFields, UnpackSummary, UnpackDelay;
    var shadows, fields, summary := PackShadows(c, ss, isCross).value, PackFields(d), PackSummary(keys, d.summarys);
    var head := [TInt32(|ss|)];
    RegroupFive(head, shadows, fields, summary, rest);
    var ts := shadows + (fields + (summary + rest));
    assert (head + ts)[1..] == ts;
    ShadowsRoundTrip(c, ss, isCross, fields + (summary + rest), []);
    assert [] + ss == ss;
    FieldsRoundTrip(d, ss, summary + rest);
    SummaryRoundTrip(keys, d.summarys, rest);
  }

  lemma RegroupFive(a: seq<Token>, b: seq<Token>, c: seq<Token>, d: seq<Token>, e: seq<Token>)
    ensures a + b + c + d + e == a + (b + (c + (d + e)))
  {
  }

  lemma DelayRoundTrip(d: DragData, delayed: bool, isCross: bool, rest: seq<Token>)
    ensures var delay := if isCross then [] else [TBool(delayed)];
            UnpackDelay(d, delay + rest, isCross) == Got(if isCross then d else d.(isDragDelay := delayed), rest)
  {
    var delay := if isCross then [] else [TBool(delayed)];
    assert (delay + rest)[|delay|..] == rest;
  }

  /**
   * Drag data survives the trip. A parcel written by a successful `Marshalling` and followed by anything else is unpacked,
   * with the same flag, to the same record with its shadows cut to three and the delay flag kept only within one device,
   * and exactly what was written is consumed. This holds if and only if there are at most 1024 summaries.
   */
  lemma DragDataRoundTrip(c: Codec, d: DragData, keys: seq<string>, isCross: bool, rest: seq<Token>)
    requires Lawful(c) && Lists(keys, d.summarys) && |keys| < 0x8000_0000
    requires Pack(c, d, keys, isCross).Some?
    ensures var delay := if isCross then [] else [TBool(d.isDragDelay)];
            Unpack(c, Pack(c, d, keys, isCross).value + delay + rest, isCross) ==
            (if |keys| <= MAX_BUF_SIZE then Got(Arriving(d, !isCross && d.isDragDelay), rest) else Fail)
  {
    hide UnpackDelay;
    var packed, delay := Pack(c, d, keys, isCross).value, if isCross then [] else [TBool(d.isDragDelay)];
    hide Pack, Unpack, Lawful, Lists;
    assert packed + delay + rest == packed + (delay + rest);
    PackedRoundTrip(c, d, keys, isCross, delay + rest);
    DelayRoundTrip(Arriving(d, false), d.isDragDelay, isCross, rest);
  }

  /** When the delay flag itself did not fit, `Marshalling` still succeeds and the flag arrives as false. */
  lemma LostDelayFlag(c: Codec, d: DragData, keys: seq<string>)
    requires Lawful(c) && Lists(keys, d.summarys) && |keys| <= MAX_BUF_SIZE
    requires Pack(c, d, keys, false).Some?
    ensures Unpack(c, Pack(c, d, keys, false).value, false) == Got(Arriving(d, false), [])
  {
    PackedRoundTrip(c, d, keys, false, []);
    assert Pack(c, d, keys, false).value + [] == Pack(c, d, keys, false).value;
  }

  /** Everything a successful `Marshalling` adds to a parcel with `room` bytes left: the delay flag only if it fits. */
  function Written(c: Codec, d: DragData, keys: seq<string>, isCross: bool, room: int): seq<Token>
    requires (forall k <- keys :: k in d.summarys) && Pack(c, d, keys, isCross).Some?
  {
    var packed, delay := Pack(c, d, keys, isCross).value, [TBool(d.isDragDelay)];
    packed + if isCross || SizeOf(packed + delay) > room then [] else delay
  }

  /** Every value takes at least the four bytes of the flag, so nothing can follow a flag that did not fit. */
  lemma NothingFollows(packed: seq<Token>, delay: bool, room: int, rest: seq<Token>)
    requires SizeOf(packed + [TBool(delay)]) > room && SizeOf(packed + rest) <= room
    ensures rest == []
  {
    SizeOfAppend(packed, [TBool(delay)]);
    SizeOfAppend(packed, rest);
    assert SizeOf([TBool(delay)]) == 4;
    SizeOfCount(rest);
  }

  /**
   * What becomes of the delay flag. A parcel filled by a successful `Marshalling`, and by anything else that still fits,
   * is unpacked to the same record; within one device the record arrives with its own flag if and only if the flag fitted
   * or was false, and `Marshalling` succeeds in either case.
   */
  lemma DelayArrivesIff(c: Codec, d: DragData, keys: seq<string>, isCross: bool, room: int, rest: seq<Token>)
    requires Lawful(c) && Lists(keys, d.summarys) && |keys| <= MAX_BUF_SIZE
    requires Pack(c, d, keys, isCross).Some? && SizeOf(Written(c, d, keys, isCross, room) + rest) <= room
    ensures var fitted := SizeOf(Pack(c, d, keys, isCross).value + [TBool(d.isDragDelay)]) <= room;
            var r := Unpack(c, Written(c, d, keys, isCross, room) + rest, isCross);
            && r == Got(Arriving(d, !isCross && fitted && d.isDragDelay), rest)
            && (!isCross ==> (r.value.isDragDelay == d.isDragDelay <==> fitted || !d.isDragDelay))
  {
    hide Pack, Unpack, Lawful, SizeOf;
    var packed := Pack(c, d, keys, isCross).value;
    if !isCross && SizeOf(packed + [TBool(d.isDragDelay)]) > room {
      assert packed + [] == packed;
      NothingFollows(packed, d.isDragDelay, room, rest);
      LostDelayFlag(c, d, keys);
    } else {
      DragDataRoundTrip(c, d, keys, isCross, rest);
    }
  }

  /** A lawful codec: a pixel map is one value in a parcel. */
  lemma SampleCodec() returns (c: Codec)
    ensures Lawful(c) && forall p :: c.marshal(p) == Some([TInt64(p.content)])
  {
    c := Codec(
      (p: PixelMap) => Some([TInt64(p.content)]),
      (ts: seq<Token>) => if ts != [] && ts[0].TInt64? && ts[0].n >= 0 then Some((PixelMap(ts[0].n), 1)) else None,
      (p: PixelMap) => None,
      (bytes: seq<Byte>) => None);
  }

  /** A record with one shadow and the given summaries can be packed. */
  lemma SamplePacks(c: Codec, d: DragData, keys: seq<string>)
    requires (forall p :: c.marshal(p) == Some([TInt64(p.content)])) && forall k <- keys :: k in d.summarys
    requires d.shadowInfos == [Shadow(Some(PixelMap(0)), 0, 0)]
    ensures Pack(c, d, keys, false).Some?
  {
    assert PackShadow(c, d.shadowInfos[0], false).Some? && PackShadows(c, [], false).Some?;
    assert PackShadows(c, Cut(d.shadowInfos), false).Some?;
  }

  lemma SampleSummaries(n: nat) returns (keys: seq<string>, summarys: map<string, int>)
    ensures Lists(keys, summarys) && |keys| == n
  {
    keys := seq(n, i requires 0 <= i => seq(i, _ => 'x'));
    assert forall i, j :: 0 <= i < j < |keys| ==> |keys[i]| != |keys[j]|;
    summarys := map k | k in keys :: 0;
  }

  /** A record with 1025 summaries, which is packed without complaint and refused at the other end. */
  lemma TooManySummaries() returns (c: Codec, d: DragData, keys: seq<string>)
    ensures Lawful(c) && Lists(keys, d.summarys) && |keys| == 1025
    ensures Pack(c, d, keys, false).Some?
    ensures Unpack(c, Pack(c, d, keys, false).value + [TBool(d.isDragDelay)], false) == Fail
  {
    hide Lawful, Pack, Unpack, Lists;
    c := SampleCodec();
    var summarys;
    keys, summarys := SampleSummaries(MAX_BUF_SIZE + 1);
    d := BLANK.(shadowInfos := [Shadow(Some(PixelMap(0)), 0, 0)], summarys := summarys);
    ListsKeys(keys, summarys);
    SamplePacks(c, d, keys);
    DragDataRoundTrip(c, d, keys, false, []);
    var ts := Pack(c, d, keys, false).value + [TBool(d.isDragDelay)];
    assert ts + [] == ts;
  }

  /** A parcel that is full once everything else is in: the record arrives without its delay flag. */
  lemma DelayLost() returns (c: Codec, d: DragData, room: nat)
    ensures Lawful(c) && d.isDragDelay && Lists([], d.summarys) && Pack(c, d, [], false).Some?
    ensures SizeOf(Pack(c, d, [], false).value) <= room
    ensures Unpack(c, Written(c, d, [], false, room), false) == Got(d.(isDragDelay := false), [])
  {
    hide Lawful, Pack, Unpack, SizeOf;
    c := SampleCodec();
    d := BLANK.(shadowInfos := [Shadow(Some(PixelMap(0)), 0, 0)], isDragDelay := true);
    SamplePacks(c, d, []);
    var packed, delay := Pack(c, d, [], false).value, [TBool(d.isDragDelay)];
    room := SizeOf(packed);
    SizeOfAppend(packed, delay);
    DelaySize(d.isDragDelay);
    assert Written(c, d, [], false, room) + [] == packed + [] == packed;
    DelayArrivesIff(c, d, [], false, room, []);
  }

  lemma DelaySize(delay: bool)
    ensures SizeOf([TBool(delay)]) == 4
  {
  }

  // ----- Nothing else is accepted -----

  lemma {:induction false} NumbersParsed(n: nat, ts: seq<Token>)
    requires UnpackNumbers(n, ts).Got?
    ensures var r := UnpackNumbers(n, ts); NumberTokens(r.value) + r.rest == ts
    decreases n
  {
    if n == 0 {
      assert NumberTokens([]) + ts == ts;
    } else {
      var r, tail := UnpackNumbers(n, ts), UnpackNumbers(n - 1, ts[1..]);
      NumbersParsed(n - 1, ts[1..]);
      assert r.value[1..] == tail.value;
      assert [ts[0]] + (NumberTokens(tail.value) + tail.rest) == [ts[0]] + NumberTokens(tail.value) + tail.rest;
      assert [ts[0]] + ts[1..] == ts;
    }
  }

  /** Fields that are read are fields that were written: the record read packs to the very values it was read from. */
  lemma FieldsParsed(shadows: seq<Shadow>, ts: seq<Token>)
    requires UnpackFields(shadows, ts).Got?
    ensures var r := UnpackFields(shadows, ts); PackFields(r.value) + r.rest == ts
  {
    hide UnpackNumbers, NumberTokens;
    var texts := UnpackTexts(ts);
    var numbers := UnpackNumbers(7, texts.rest);
    var flags := UnpackFlags(numbers.rest);
    var d := UnpackFields(shadows, ts).value;
    NumbersParsed(7, texts.rest);
    assert Numbers(d) == numbers.value;
    var front, ns, bs := ts[..4], NumberTokens(numbers.value), [TBool(flags.value.0), TBool(flags.value.1)];
    assert numbers.rest == bs + flags.rest && ts == front + (ns + (bs + flags.rest));
    assert PackFields(d) == front + ns + bs;
    assert front + ns + bs + flags.rest == front + (ns + (bs + flags.rest));
  }

  /** A shadow that is read has a pixel map, and its coordinates stand right before what is left. */
  lemma ShadowParsed(c: Codec, ts: seq<Token>, isCross: bool)
    requires UnpackShadow(c, ts, isCross).Got?
    ensures var r := UnpackShadow(c, ts, isCross);
            && r.value.pixelMap.Some? && |r.rest| + 2 <= |ts|
            && ts[|ts| - |r.rest| - 2..] == [TInt32(r.value.x), TInt32(r.value.y)] + r.rest
  {
    var pixels := UnpackPixelMap(c, ts, isCross);
    assert pixels.rest == ts[|ts| - |pixels.rest|..];
    assert pixels.rest == pixels.rest[..2] + pixels.rest[2..];
  }

  function Pairs(keys: seq<string>, numbers: seq<int>): seq<Token>
    requires |keys| == |numbers|
  {
    if keys == [] then [] else [TString(keys[0]), TInt64(numbers[0])] + Pairs(keys[1..], numbers[1..])
  }

  lemma {:induction false} EntriesParsed(n: nat, ts: seq<Token>, m: map<string, int>)
    returns (keys: seq<string>, numbers: seq<int>)
    requires UnpackEntries(n, ts, m).Got?
    ensures |keys| == |numbers| == n && ts == Pairs(keys, numbers) + UnpackEntries(n, ts, m).rest
    ensures forall k :: k in UnpackEntries(n, ts, m).value <==> k in m || k in keys
    decreases n
  {
    keys, numbers := [], [];
    if n == 0 {
      assert Pairs([], []) + ts == ts;
    } else {
      var key, number := ts[0].s, ts[1].n;
      keys, numbers := EntriesParsed(n - 1, ts[2..], m[key := number]);
      hide UnpackEntries;
      keys, numbers := PairsCons(ts, key, number, keys, numbers, UnpackEntries(n - 1, ts[2..], m[key := number]).rest);
    }
  }

  lemma PairsCons(ts: seq<Token>, key: string, number: int, keys: seq<string>, numbers: seq<int>, rest: seq<Token>)
    returns (keys': seq<string>, numbers': seq<int>)
    requires |keys| == |numbers| && |ts| >= 2 && ts[0] == TString(key) && ts[1] == TInt64(number)
    requires ts[2..] == Pairs(keys, numbers) + rest
    ensures keys' == [key] + keys && numbers' == [number] + numbers && ts == Pairs(keys', numbers') + rest
  {
    keys', numbers' := [key] + keys, [number] + numbers;
    assert keys'[1..] == keys && numbers'[1..] == numbers;
    assert ts == [TString(key), TInt64(number)] + ts[2..];
  }

  /** Summaries that are read are at most 1024 pairs of a string and a number behind their count, and all of them. */
  lemma SummaryParsed(ts: seq<Token>) returns (keys: seq<string>, numbers: seq<int>)
    requires UnpackSummary(ts).Got?
    ensures var r := UnpackSummary(ts);
            && |keys| == |numbers| <= 1024 && ts == [TInt32(|keys|)] + Pairs(keys, numbers) + r.rest
            && forall k :: k in r.value <==> k in keys
  {
    hide Pairs;
    keys, numbers := EntriesParsed(ts[0].i, ts[1..], map[]);
    assert ts == [ts[0]] + ts[1..];
  }

  // ----- The packing code -----

  /** `PackUpShadowInfo`. */
  method PackUpShadowInfo(p: Parcel, c: Codec, s: Shadow, isCross: bool) returns (ok: bool)
    requires p.Valid()
    modifies p`tokens
    ensures p.Valid() && (ok <==> PackShadow(c, s, isCross).Some? && old(p.Fits(PackShadow(c, s, isCross).value)))
    ensures ok ==> p.tokens == old(p.tokens) + PackShadow(c, s, isCross).value
  {
    if s.pixelMap == None {
      return false;
    }
    ghost var place := [TInt32(s.x), TInt32(s.y)];
    if isCross {
      var pixelBuffer := c.encodeTlv(s.pixelMap.value);
      if pixelBuffer == None {
        return false;
      }
      SizeOfAppend([TBytes(pixelBuffer.value)], place);
      ok := p.Write(TBytes(pixelBuffer.value));
      SizeOfAppend(old(p.tokens), [TBytes(pixelBuffer.value)]);
    } else {
      var marshalled := c.marshal(s.pixelMap.value);
      if marshalled == None {
        return false;
      }
      SizeOfAppend(marshalled.value, place);
      ok := WriteAll(p, marshalled.value);
      SizeOfAppend(old(p.tokens), marshalled.value);
    }
    if !ok {
      return false;
    }
    ok := WriteAll(p, [TInt32(s.x), TInt32(s.y)]);
  }

  /** Writing `first` and then `others`: what fits, and what the parcel then holds. */
  lemma WriteInTwo(start: seq<Token>, first: seq<Token>, others: seq<Token>)
    ensures SizeOf(start + first) == SizeOf(start) + SizeOf(first)
    ensures SizeOf(first + others) == SizeOf(first) + SizeOf(others)
    ensures start + first + others == start + (first + others)
  {
    hide SizeOf;
    SizeOfAppend(start, first);
    SizeOfAppend(first, others);
  }

  lemma PackShadowsFrom(c: Codec, ss: seq<Shadow>, i: nat, isCross: bool)
    requires i < |ss|
    ensures var first, others := PackShadow(c, ss[i], isCross), PackShadows(c, ss[i + 1..], isCross);
            PackShadows(c, ss[i..], isCross) ==
            if first.None? || others.None? then None else Some(first.value + others.value)
  {
    assert ss[i..][1..] == ss[i + 1..];
  }

  /** The loop of `ShadowPacker::Marshalling` over the shadows that travel. */
  method PackUpShadows(p: Parcel, c: Codec, ss: seq<Shadow>, isCross: bool) returns (ok: bool)
    requires p.Valid() && SizeOf(p.tokens) <= p.capacity
    modifies p`tokens
    ensures p.Valid() && (ok <==> PackShadows(c, ss, isCross).Some? && old(p.Fits(PackShadows(c, ss, isCross).value)))
    ensures ok ==> p.tokens == old(p.tokens) + PackShadows(c, ss, isCross).value
  {
    ghost var all := PackShadows(c, ss, isCross);
    ghost var target := if all.Some? then old(p.tokens) + all.value else [];
    if all.Some? {
      SizeOfAppend(old(p.tokens), all.value);
    }
    var i := 0;
    assert ss[0..] == ss && PackShadows(c, [], isCross) == Some([]);
    hide PackShadow, PackShadows, SizeOf;
    while i < |ss|
      invariant 0 <= i <= |ss| && p.Valid() && SizeOf(p.tokens) <= p.capacity
      invariant all.Some? <==> PackShadows(c, ss[i..], isCross).Some?
      invariant all.Some? ==> p.tokens + PackShadows(c, ss[i..], isCross).value == target
    {
      ghost var before, first, others := p.tokens, PackShadow(c, ss[i], isCross), PackShadows(c, ss[i + 1..], isCross);
      PackShadowsFrom(c, ss, i, isCross);
      var packed := PackUpShadowInfo(p, c, ss[i], isCross);
      if all.Some? {
        WriteInTwo(before, first.value, others.value);
        SizeOfAppend(before, first.value + others.value);
      }
      if !packed {
        return false;
      }
      SizeOfAppend(before, first.value);
      i := i + 1;
    }
    assert ss[i..] == [] && p.tokens + [] == p.tokens;
    return true;
  }

  /** The loop of `SummaryPacker::Marshalling`. */
  method PackUpEntries(p: Parcel, keys: seq<string>, m: map<string, int>) returns (ok: bool)
    requires p.Valid() && SizeOf(p.tokens) <= p.capacity && forall k <- keys :: k in m
    modifies p`tokens
    ensures p.Valid() && ok == old(p.Fits(PackEntries(keys, m)))
    ensures ok ==> p.tokens == old(p.tokens) + PackEntries(keys, m)
  {
    ghost var all := PackEntries(keys, m);
    SizeOfAppend(p.tokens, all);
    var i := 0;
    assert keys[0..] == keys;
    while i < |keys|
      invariant 0 <= i <= |keys| && p.Valid() && SizeOf(p.tokens) <= p.capacity
      invariant p.tokens + PackEntries(keys[i..], m) == old(p.tokens) + all
    {
      ghost var before, entry, others := p.tokens, [TString(keys[i]), TInt64(m[keys[i]])], PackEntries(keys[i + 1..], m);
      assert keys[i..][1..] == keys[i + 1..];
      SizeOfAppend(before, entry + others);
      SizeOfAppend(entry, others);
      assert before + (entry + others) == before + entry + others;
      var written := WriteAll(p, [TString(keys[i]), TInt64(m[keys[i]])]);
      if !written {
        return false;
      }
      SizeOfAppend(before, entry);
      i := i + 1;
    }
    assert p.tokens + [] == p.tokens;
    return true;
  }

  /** `SummaryPacker::Marshalling`. */
  method PackUpSummary(p: Parcel, keys: seq<string>, m: map<string, int>) returns (ok: bool)
    requires p.Valid() && SizeOf(p.tokens) <= p.capacity && forall k <- keys :: k in m
    modifies p`tokens
    ensures p.Valid() && ok == old(p.Fits(PackSummary(keys, m)))
    ensures ok ==> p.tokens == old(p.tokens) + PackSummary(keys, m)
  {
    WriteInTwo(p.tokens, [TInt32(ToInt32(|keys|))], PackEntries(keys, m));
    ok := WriteAll(p, [TInt32(ToInt32(|keys|))]);
    if !ok {
      return false;
    }
    ok := PackUpEntries(p, keys, m);
  }

  /** All of `DragDataPacker::Marshalling` but the delay flag; `ShadowPacker::Marshalling` writes the first two parts. */
  method MarshalParts(p: Parcel, c: Codec, d: DragData, keys: seq<string>, isCross: bool) returns (ok: bool)
    requires p.Valid() && SizeOf(p.tokens) <= p.capacity && forall k <- keys :: k in d.summarys
    requires d.shadowInfos != []
    modifies p`tokens
    ensures p.Valid()
    ensures var packed := Pack(c, d, keys, isCross);
            ok <==> packed.Some? && SizeOf(old(p.tokens)) + SizeOf(packed.value) <= p.capacity
    ensures ok ==> p.tokens == old(p.tokens) + Pack(c, d, keys, isCross).value
  {
    var ss := Cut(d.shadowInfos);
    ghost var packed, shadows := Pack(c, d, keys, isCross), PackShadows(c, ss, isCross);
    ghost var start, head, fields, summary := p.tokens, [TInt32(|ss|)], PackFields(d), PackSummary(keys, d.summarys);
    assert packed == if shadows.None? then None else Some(head + shadows.value + fields + summary);
    hide Pack, PackShadows, PackFields, PackSummary, SizeOf;
    if shadows.Some? {
      RegroupFive(head, shadows.value, fields, summary, []);
      assert head + shadows.value + fields + summary + [] == head + shadows.value + fields + summary;
      assert summary + [] == summary;
      WriteInTwo(start, head, shadows.value + (fields + summary));
      WriteInTwo(start + head, shadows.value, fields + summary);
      WriteInTwo(start + head + shadows.value, fields, summary);
    }
    ok := WriteAll(p, [TInt32(|ss|)]);
    if !ok {
      return false;
    }
    SizeOfAppend(start, head);
    ok := PackUpShadows(p, c, ss, isCross);
    if !ok {
      return false;
    }
    ok := WriteAll(p, PackFields(d));
    if !ok {
      return false;
    }
    ok := PackUpSummary(p, keys, d.summarys);
  }

  /**
   * `DragDataPacker::Marshalling`: succeeds exactly when there is something to pack and all of it fits. A delay flag that
   * no longer fits is left out without failing the call.
   */
  method Marshalling(p: Parcel, c: Codec, d: DragData, keys: seq<string>, isCross: bool) returns (ok: bool)
    requires p.Valid() && SizeOf(p.tokens) <= p.capacity && Lists(keys, d.summarys)
    modifies p`tokens
    ensures p.Valid()
    ensures var packed := Pack(c, d, keys, isCross);
            ok <==> packed.Some? && SizeOf(old(p.tokens)) + SizeOf(packed.value) <= p.capacity
    ensures ok ==> p.tokens == old(p.tokens) + Written(c, d, keys, isCross, p.capacity - SizeOf(old(p.tokens)))
  {
    hide Pack, SizeOf, Written, Lists, WithDelay;
    ListsKeys(keys, d.summarys);
    NothingToPack(c, d, keys, isCross);
    if d.shadowInfos == [] {
      return false;
    }
    ok := MarshalParts(p, c, d, keys, isCross);
    if !ok {
      return false;
    }
    DelayWritten(old(p.tokens), p.capacity, c, d, keys, isCross);
    MarshalDelay(p, d.isDragDelay, isCross);
  }

  /** The delay flag behind what a parcel holds, if it is to be written and fits. */
  function WithDelay(ts: seq<Token>, capacity: nat, isDragDelay: bool, isCross: bool): seq<Token>
  {
    var delay := [TBool(isDragDelay)];
    if !isCross && SizeOf(ts) + SizeOf(delay) <= capacity then ts + delay else ts
  }

  /** The last value, whose failure to fit is only logged. */
  method MarshalDelay(p: Parcel, isDragDelay: bool, isCross: bool)
    requires p.Valid()
    modifies p`tokens
    ensures p.Valid()
    ensures p.tokens == WithDelay(old(p.tokens), p.capacity, isDragDelay, isCross)
  {
    hide SizeOf;
    if !isCross {
      var _ := p.Write(TBool(isDragDelay));
    }
  }

  lemma ListsKeys(keys: seq<string>, m: map<string, int>)
    requires Lists(keys, m)
    ensures forall k <- keys :: k in m
  {
  }

  /** The parcel after the parts have been written, and the flag if it fits behind them. */
  lemma DelayWritten(start: seq<Token>, capacity: nat, c: Codec, d: DragData, keys: seq<string>, isCross: bool)
    requires (forall k <- keys :: k in d.summarys) && Pack(c, d, keys, isCross).Some?
    ensures start + Written(c, d, keys, isCross, capacity - SizeOf(start)) ==
            WithDelay(start + Pack(c, d, keys, isCross).value, capacity, d.isDragDelay, isCross)
  {
    hide Pack, SizeOf;
    var packed, delay := Pack(c, d, keys, isCross).value, [TBool(d.isDragDelay)];
    WriteInTwo(start, packed, delay);
    assert packed + [] == packed;
  }

  lemma NothingToPack(c: Codec, d: DragData, keys: seq<string>, isCross: bool)
    requires forall k <- keys :: k in d.summarys
    ensures d.shadowInfos == [] ==> Pack(c, d, keys, isCross).None?
  {
  }

  // ----- The unpacking code -----

  /** A call that reads `r` off the front of the parcel, or fails where the reader fails. */
  ghost predicate Reads<T>(r: Read<T>, result: Option<T>, remaining: seq<Token>)
  {
    if r.Got? then result == Some(r.value) && remaining == r.rest else result == None
  }

  /** The pixel map in `ShadowPacker::UnPackShadowInfo`, from its own encoding or from the parcel itself. */
  method UnPackPixelMap(p: Parcel, c: Codec, isCross: bool) returns (r: Option<PixelMap>)
    requires p.Valid()
    modifies p`readPos
    ensures p.Valid() && Reads(UnpackPixelMap(c, old(p.Remaining()), isCross), r, p.Remaining())
  {
    if isCross {
      var pixelBuffer := p.ReadUInt8Vector();
      return if pixelBuffer == None then None else c.decodeTlv(pixelBuffer.value);
    }
    var ts := p.tokens[p.readPos..];
    var u := c.unmarshal(ts);
    if u.None? || !(0 <= u.value.1 <= |ts|) {
      return None;
    }
    p.readPos := p.readPos + u.value.1;
    return Some(u.value.0);
  }

  method UnPackShadowInfo(p: Parcel, c: Codec, isCross: bool) returns (r: Option<Shadow>)
    requires p.Valid()
    modifies p`readPos
    ensures p.Valid() && Reads(UnpackShadow(c, old(p.Remaining()), isCross), r, p.Remaining())
  {
    hide UnpackPixelMap, Parcel.Remaining;
    var rawPixelMap := UnPackPixelMap(p, c, isCross);
    if rawPixelMap == None {
      return None;
    }
    var x := p.ReadInt32();
    if x == None {
      return None;
    }
    var y := p.ReadInt32();
    if y == None {
      return None;
    }
    return Some(Shadow(rawPixelMap, x.value, y.value));
  }

  lemma UnpackShadowsStep(c: Codec, n: nat, ts: seq<Token>, isCross: bool, before: seq<Shadow>)
    ensures UnpackShadows(c, n, ts, isCross, before) ==
            if n == 0 then Got(before, ts)
            else
              match UnpackShadow(c, ts, isCross)
              case Fail => Fail
              case Got(first, rest) => UnpackShadows(c, n - 1, rest, isCross, before + [first])
  {
    hide UnpackShadow;
  }

  /** The loop of `ShadowPacker::UnMarshalling`. */
  method UnPackShadows(p: Parcel, c: Codec, n: nat, isCross: bool) returns (r: Option<seq<Shadow>>)
    requires p.Valid()
    modifies p`readPos
    ensures p.Valid() && Reads(UnpackShadows(c, n, old(p.Remaining()), isCross, []), r, p.Remaining())
  {
    hide UnpackShadow, UnpackShadows;
    ghost var whole := UnpackShadows(c, n, p.Remaining(), isCross, []);
    var shadowInfos, i := [], 0;
    while i < n
      invariant 0 <= i <= n && p.Valid()
      invariant whole == UnpackShadows(c, n - i, p.Remaining(), isCross, shadowInfos)
    {
      ghost var ts := p.Remaining();
      UnpackShadowsStep(c, n - i, ts, isCross, shadowInfos);
      var shadowInfo := UnPackShadowInfo(p, c, isCross);
      if shadowInfo == None {
        return None;
      }
      shadowInfos := shadowInfos + [shadowInfo.value];
      i := i + 1;
    }
    UnpackShadowsStep(c, 0, p.Remaining(), isCross, shadowInfos);
    return Some(shadowInfos);
  }

  /** `ShadowPacker::UnMarshalling`. */
  method UnMarshalShadows(p: Parcel, c: Codec, isCross: bool) returns (r: Option<seq<Shadow>>)
    requires p.Valid()
    modifies p`readPos
    ensures p.Valid()
    ensures var ts := old(p.Remaining());
            if ts == [] || !ts[0].TInt32? || ts[0].i <= 0 || ts[0].i > SHADOW_NUM_LIMIT then r == None
            else Reads(UnpackShadows(c, ts[0].i, ts[1..], isCross, []), r, p.Remaining())
  {
    hide UnpackShadows;
    var shadowNum := p.ReadInt32();
    if shadowNum == None || shadowNum.value <= 0 || shadowNum.value > SHADOW_NUM_LIMIT {
      return None;
    }
    r := UnPackShadows(p, c, shadowNum.value, isCross);
  }

  /** `SummaryPacker::UnMarshalling`, into an empty map. */
  method UnMarshalSummary(p: Parcel) returns (r: Option<map<string, int>>)
    requires p.Valid()
    modifies p`readPos
    ensures p.Valid() && Reads(UnpackSummary(old(p.Remaining())), r, p.Remaining())
  {
    hide Parcel.Remaining;
    var readAbleSize := p.GetReadableBytes();
    var size := p.ReadInt32();
    if size == None || size.value < 0 || size.value > readAbleSize || size.value > MAX_BUF_SIZE {
      return None;
    }
    ghost var whole := UnpackEntries(size.value, p.Remaining(), map[]);
    var m: map<string, int> := map[];
    var i := 0;
    while i < size.value
      invariant 0 <= i <= size.value && p.Valid()
      invariant UnpackEntries(size.value - i, p.Remaining(), m) == whole
    {
      ghost var ts := p.Remaining();
      var key := p.ReadString();
      if key == None {
        return None;
      }
      var v := p.ReadInt64();
      if v == None {
        return None;
      }
      assert p.Remaining() == ts[2..];
      m := m[key.value := v.value];
      i := i + 1;
    }
    return Some(m);
  }

  method UnMarshalTexts(p: Parcel) returns (r: Option<(seq<Byte>, string, string, string)>)
    requires p.Valid()
    modifies p`readPos
    ensures p.Valid() && Reads(UnpackTexts(old(p.Remaining())), r, p.Remaining())
  {
    ghost var ts := p.Remaining();
    var buffer := p.ReadUInt8Vector();
    if buffer == None { return None; }
    var udKey := p.ReadString();
    if udKey == None { return None; }
    var extraInfo := p.ReadString();
    if extraInfo == None { return None; }
    var filterInfo := p.ReadString();
    if filterInfo == None { return None; }
    assert p.Remaining() == ts[4..];
    return Some((buffer.value, udKey.value, extraInfo.value, filterInfo.value));
  }

  /** A run of `n` READINT32 macros. */
  method UnMarshalNumbers(p: Parcel, n: nat) returns (r: Option<seq<Int32>>)
    requires p.Valid()
    modifies p`readPos
    ensures p.Valid() && Reads(UnpackNumbers(n, old(p.Remaining())), r, p.Remaining())
  {
    ghost var whole := UnpackNumbers(n, p.Remaining());
    var ns, i := [], 0;
    assert whole.Got? ==> ns + whole.value == whole.value;
    while i < n
      invariant 0 <= i <= n && p.Valid()
      invariant var tail := UnpackNumbers(n - i, p.Remaining());
                whole == if tail.Fail? then Fail else Got(ns + tail.value, tail.rest)
    {
      var v := p.ReadInt32();
      if v == None {
        return None;
      }
      ghost var others := UnpackNumbers(n - i - 1, p.Remaining());
      if others.Got? {
        assert ns + ([v.value] + others.value) == ns + [v.value] + others.value;
      }
      ns := ns + [v.value];
      i := i + 1;
    }
    assert ns + [] == ns;
    return Some(ns);
  }

  method UnMarshalFlags(p: Parcel) returns (r: Option<(bool, bool)>)
    requires p.Valid()
    modifies p`readPos
    ensures p.Valid() && Reads(UnpackFlags(old(p.Remaining())), r, p.Remaining())
  {
    ghost var ts := p.Remaining();
    var hasCanceledAnimation := p.ReadBool();
    if hasCanceledAnimation == None { return None; }
    var hasCoordinateCorrected := p.ReadBool();
    if hasCoordinateCorrected == None { return None; }
    assert p.Remaining() == ts[2..];
    return Some((hasCanceledAnimation.value, hasCoordinateCorrected.value));
  }

  /** The READ macros over the plain fields. */
  method UnMarshalFields(p: Parcel, shadows: seq<Shadow>) returns (r: Option<DragData>)
    requires p.Valid()
    modifies p`readPos
    ensures p.Valid() && Reads(UnpackFields(shadows, old(p.Remaining())), r, p.Remaining())
  {
    hide UnpackTexts, UnpackNumbers, UnpackFlags;
    var texts := UnMarshalTexts(p);
    if texts == None { return None; }
    var numbers := UnMarshalNumbers(p, 7);
    if numbers == None { return None; }
    var flags := UnMarshalFlags(p);
    if flags == None { return None; }
    return Some(WithFields(shadows, texts.value, numbers.value, flags.value));
  }

  /** `DragDataPacker::UnMarshalling`, into a fresh record. */
  method UnMarshalling(p: Parcel, c: Codec, isCross: bool) returns (r: Option<DragData>)
    requires p.Valid()
    modifies p`readPos
    ensures p.Valid() && Reads(Unpack(c, old(p.Remaining()), isCross), r, p.Remaining())
  {
    hide UnpackShadows, UnpackFields, UnpackSummary;
    var shadows := UnMarshalShadows(p, c, isCross);
    if shadows == None {
      return None;
    }
    var fields := UnMarshalFields(p, shadows.value);
    if fields == None {
      return None;
    }
    var summarys := UnMarshalSummary(p);
    if summarys == None {
      return None;
    }
    var d := fields.value.(summarys := summarys.value);
    if !isCross {
      var delay := p.ReadBool();
      if delay.Some? {
        d := d.(isDragDelay := delay.value);
      }
    }
    return Some(d);
  }
}
