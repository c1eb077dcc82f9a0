/** Model of the four-digit multiplexed seven-segment display driver
    (Core/Src/sevenseg4.c).

    The driver keeps a stored value (tenths of a second, or the BLANK
    sentinel), a four-entry frame buffer of segment patterns and a scan
    cursor.  Every 1 ms tick rebuilds the frame when the cursor is 0 and then
    performs one multiplexing step: all digit enables off, all segments off,
    the cursor's pattern on the segment lines, the cursor's digit on.

    Pin writes are abstract: a set pattern bit means "segment lit", a true
    digit entry means "digit enabled"; the active-low wiring is not modelled. */
module SevenSeg4 {

  /** The C type uint16_t. */
  type u16 = x: int | 0 <= x < 0x1_0000

  /** SEVENSEG4_BLANK: the stored value that shows nothing. */
  const Blank: u16 := 0xFFFF
  /** 1000 tenths = "100.0", the largest value shown. */
  const MaxTenths: u16 := 1000
  /** Bit 7 of a pattern drives the decimal point. */
  const DecimalPoint: bv8 := 0x80
  /** Number of multiplexed digits. */
  const DigitCount: int := 4

  /** Number of entries of seg_lut. */
  const LutSize: int := 11

  /** seg_lut[i]: entry 0 is OFF, entries 1..10 are the digits 0..9
      (bit 0 = segment A ... bit 6 = segment G). */
  function SegLut(i: int): bv8
    requires 0 <= i < LutSize
  {
    if i == 0 then 0x00 else if i == 1 then 0x3F else if i == 2 then 0x06 else if i == 3 then 0x5B
    else if i == 4 then 0x4F else if i == 5 then 0x66 else if i == 6 then 0x6D else if i == 7 then 0x7D
    else if i == 8 then 0x07 else if i == 9 then 0x7F else 0x6F
  }

  /** The pattern with every segment dark (seg_lut[0]). */
  const Off: bv8 := 0x00

  /** A frame with all four positions dark. */
  const DarkFrame: seq<bv8> := [Off, Off, Off, Off]

  /** Values the driver may hold: a number of tenths up to 1000, or BLANK. */
  predicate StoredValue(v: int) {
    0 <= v <= MaxTenths || v == Blank
  }

  /** What SevenSeg4_SetTenths stores for the argument v. */
  function Stored(v: u16): (r: u16)
    ensures StoredValue(r)
    ensures r == Blank <==> v == Blank
    ensures v <= MaxTenths ==> r == v
    ensures MaxTenths < v < Blank ==> r == MaxTenths
  {
    if v == Blank then Blank
    else if v > MaxTenths then MaxTenths
    else v
  }

  /** The four decimal digits of t as the driver splits them ("HSS.s"): (t/1000)%10, (t/100)%10, (t/10)%10, t%10. */
  function Digits(t: u16): (d: seq<int>)
    ensures |d| == DigitCount
    ensures forall i :: 0 <= i < |d| ==> 0 <= d[i] <= 9
  {
    [(t / 1000) % 10, (t / 100) % 10, (t / 10) % 10, t % 10]
  }

  /** The frame for the digits a, b, c, e: each digit through the table
      (index digit + 1, so never the OFF entry) and the decimal point forced
      on the third position only. */
  function Frame(a: int, b: int, c: int, e: int): (f: seq<bv8>)
    requires 0 <= a <= 9 && 0 <= b <= 9 && 0 <= c <= 9 && 0 <= e <= 9
    ensures |f| == DigitCount
  {
    [SegLut(a + 1), SegLut(b + 1), SegLut(c + 1) | DecimalPoint, SegLut(e + 1)]
  }

  /** The frame update_display_from_tenths writes for t. */
  function Image(t: u16): (f: seq<bv8>)
    ensures |f| == DigitCount
  {
    var d := Digits(t);
    Frame(d[0], d[1], d[2], d[3])
  }

  /** In every frame of digits the point is lit on the third position and
      on no other, and no position is dark. */
  lemma FrameShape(a: int, b: int, c: int, e: int)
    requires 0 <= a <= 9 && 0 <= b <= 9 && 0 <= c <= 9 && 0 <= e <= 9
    ensures var f := Frame(a, b, c, e);
      && f[0] & DecimalPoint == 0 && f[1] & DecimalPoint == 0 && f[3] & DecimalPoint == 0
      && f[2] & DecimalPoint != 0
      && f[0] != Off && f[1] != Off && f[2] != Off && f[3] != Off
  {
    LutEntry(a + 1);
    LutEntry(b + 1);
    LutEntry(c + 1);
    LutEntry(e + 1);
  }

  /** The frame rebuilt at a cycle boundary from the stored value v. */
  function Rebuilt(v: u16): (f: seq<bv8>)
    ensures |f| == DigitCount
  {
    if v == Blank then DarkFrame else Image(v)
  }

  /** No table entry uses bit 7, so forcing the point on an entry can be undone
      by masking it off; only entry 0 is OFF. */
  lemma LutEntry(i: int)
    requires 0 <= i < LutSize
    ensures SegLut(i) & DecimalPoint == 0
    ensures (SegLut(i) | DecimalPoint) & !DecimalPoint == SegLut(i)
    ensures (SegLut(i) | DecimalPoint) & DecimalPoint != 0
    ensures SegLut(i) == Off <==> i == 0
  {
  }

  /** The table has eleven entries, entry 0 is the OFF pattern and differs from digit 0's pattern. */
  lemma LutShape()
    ensures LutSize == 11 && SegLut(0) == Off && SegLut(0) != SegLut(1)
  {
  }

  /** The eleven table entries are pairwise distinct, so a pattern names at most one digit. */
  lemma LutDistinct(i: int, j: int)
    requires 0 <= i < LutSize && 0 <= j < LutSize && i != j
    ensures SegLut(i) != SegLut(j)
  {
  }

  // ---------------------------------------------------------------------
  // Reading a frame back: an independent decoder for what the digits show.
  // ---------------------------------------------------------------------

  /** What a person reads off four lit positions. */
  datatype Reading = Dark | Number(tenths: int) | Garbled

  /** The first digit d' >= d whose table pattern is p, or -1 when none is. */
  function FindDigit(p: bv8, d: nat): (r: int)
    requires d <= 10
    ensures r == -1 || (d <= r <= 9 && SegLut(r + 1) == p)
    ensures r == -1 ==> forall k :: d + 1 <= k <= 10 ==> SegLut(k) != p
    decreases 10 - d
  {
    if d == 10 then -1
    else if SegLut(d + 1) == p then d
    else FindDigit(p, d + 1)
  }

  /** The digit a pattern shows, or -1 when it is not a digit pattern. */
  function DigitShown(p: bv8): (r: int)
    ensures -1 <= r <= 9
    ensures 0 <= r ==> SegLut(r + 1) == p
    ensures r == -1 ==> forall k :: 1 <= k <= 10 ==> SegLut(k) != p
  {
    FindDigit(p, 0)
  }

  /** Reads a frame the HSS.s way: all dark, or four digits with the point on the
      third position only. */
  function ReadFrame(f: seq<bv8>): (r: Reading)
    requires |f| == DigitCount
    ensures r.Number? ==> 0 <= r.tenths <= 9999
    ensures r == Dark <==> f == DarkFrame
  {
    if f == DarkFrame then Dark
    else if f[0] & DecimalPoint != 0 || f[1] & DecimalPoint != 0 || f[2] & DecimalPoint == 0 || f[3] & DecimalPoint != 0 then Garbled
    else
      var d0, d1, d2, d3 := DigitShown(f[0]), DigitShown(f[1]), DigitShown(f[2] & !DecimalPoint), DigitShown(f[3]);
      if d0 < 0 || d1 < 0 || d2 < 0 || d3 < 0 then Garbled
      else Number(1000 * d0 + 100 * d1 + 10 * d2 + d3)
  }

  /** The digit pattern of d is found at d. */
  lemma {:induction false} FindDigitOfLut(d: int, k: nat)
    requires 0 <= k <= d <= 9
    ensures FindDigit(SegLut(d + 1), k) == d
    decreases d - k
  {
    if k < d {
      LutDistinct(k + 1, d + 1);
      FindDigitOfLut(d, k + 1);
    }
  }

  /** The four digits put back together give the number, for any value of at most four digits. */
  lemma DigitsValue(t: u16)
    requires t <= 9999
    ensures var d := Digits(t); 1000 * d[0] + 100 * d[1] + 10 * d[2] + d[3] == t
  {
    var q1, q2, q3 := t / 10, t / 100, t / 1000;
    assert q1 / 10 == q2;
    assert q2 / 10 == q3;
    assert t == 10 * q1 + t % 10;
    assert q1 == 10 * q2 + q1 % 10;
    assert q2 == 10 * q3 + q2 % 10;
    assert q3 % 10 == q3;
  }

  /** The pattern of digit d shows d, with or without the decimal point. */
  lemma ShowsDigit(d: int)
    requires 0 <= d <= 9
    ensures DigitShown(SegLut(d + 1)) == d
    ensures DigitShown((SegLut(d + 1) | DecimalPoint) & !DecimalPoint) == d
  {
    LutEntry(d + 1);
    FindDigitOfLut(d, 0);
  }

  /** Pattern p reads as digit d with its point dark. */
  predicate ReadsAs(p: bv8, d: int) {
    p & DecimalPoint == 0 && p != Off && DigitShown(p) == d
  }

  /** Pattern p reads as digit d with its point lit. */
  predicate ReadsPointed(p: bv8, d: int) {
    p & DecimalPoint != 0 && DigitShown(p & !DecimalPoint) == d
  }

  /** The table pattern of digit d reads as d, plain and with the point forced on. */
  lemma GlyphReads(d: int)
    requires 0 <= d <= 9
    ensures ReadsAs(SegLut(d + 1), d) && ReadsPointed(SegLut(d + 1) | DecimalPoint, d)
  {
    LutEntry(d + 1);
    ShowsDigit(d);
  }

  /** Four patterns that each read as a digit, the point on the third only, read as the number the digits make. */
  lemma ReadPatterns(p0: bv8, p1: bv8, p2: bv8, p3: bv8, a: int, b: int, c: int, e: int)
    requires ReadsAs(p0, a) && ReadsAs(p1, b) && ReadsPointed(p2, c) && ReadsAs(p3, e)
    requires 0 <= a <= 9 && 0 <= b <= 9 && 0 <= c <= 9 && 0 <= e <= 9
    ensures ReadFrame([p0, p1, p2, p3]) == Number(1000 * a + 100 * b + 10 * c + e)
  {
    var f := [p0, p1, p2, p3];
    assert f != DarkFrame by { assert f[0] != Off; }
  }

  /** A frame of four digit patterns reads back as the number those digits make. */
  lemma ReadDigits(a: int, b: int, c: int, e: int)
    requires 0 <= a <= 9 && 0 <= b <= 9 && 0 <= c <= 9 && 0 <= e <= 9
    ensures ReadFrame(Frame(a, b, c, e)) == Number(1000 * a + 100 * b + 10 * c + e)
  {
    GlyphReads(a);
    GlyphReads(b);
    GlyphReads(c);
    GlyphReads(e);
    ReadPatterns(SegLut(a + 1), SegLut(b + 1), SegLut(c + 1) | DecimalPoint, SegLut(e + 1), a, b, c, e);
  }

  /** Round trip: the frame rebuilt from any value the driver can store reads back as that value. */
  lemma ReadRebuilt(v: u16)
    requires StoredValue(v)
    ensures ReadFrame(Rebuilt(v)) == if v == Blank then Dark else Number(v)
  {
    if v != Blank {
      var d := Digits(v);
      ReadDigits(d[0], d[1], d[2], d[3]);
      DigitsValue(v);
    }
  }

  /** The worked examples of the format: 1000 -> "100.0", 999 -> "099.9", 42 -> "004.2", 0 -> "000.0". */
  lemma WorkedExamples()
    ensures Digits(1000) == [1, 0, 0, 0] && Image(1000) == [0x06, 0x3F, 0xBF, 0x3F]
    ensures Digits(999) == [0, 9, 9, 9] && Image(999) == [0x3F, 0x6F, 0xEF, 0x6F]
    ensures Digits(42) == [0, 0, 4, 2] && Image(42) == [0x3F, 0x3F, 0xE6, 0x5B]
    ensures Digits(0) == [0, 0, 0, 0] && Image(0) == [0x3F, 0x3F, 0xBF, 0x3F]
  {
  }

  // ---------------------------------------------------------------------
  // Output pins and the anti-ghosting write order.
  // ---------------------------------------------------------------------

  /** The abstract outputs: four digit enables and the eight segment lines. */
  datatype Pins = Pins(digits: seq<bool>, segments: bv8)

  /** One output write of the driver. */
  datatype PinWrite = AllDigitsOff | AllSegmentsOff | SegmentsTo(pattern: bv8) | DigitOn(index: int)

  const AllDark: seq<bool> := [false, false, false, false]

  /** The enables with only digit c on. */
  function OneHot(c: int): (e: seq<bool>)
    requires 0 <= c < DigitCount
    ensures |e| == DigitCount
    ensures forall i :: 0 <= i < |e| ==> (e[i] <==> i == c)
  {
    AllDark[c := true]
  }

  /** The outputs after write w (digit_on ignores an index outside 0..3). */
  function Applied(p: Pins, w: PinWrite): (r: Pins)
    requires |p.digits| == DigitCount
    ensures |r.digits| == DigitCount
  {
    match w
    case AllDigitsOff => p.(digits := AllDark)
    case AllSegmentsOff => p.(segments := Off)
    case SegmentsTo(pattern) => p.(segments := pattern)
    case DigitOn(i) => if 0 <= i < DigitCount then p.(digits := p.digits[i := true]) else p
  }

  /** The outputs after the writes ws, in order. */
  function AppliedAll(p: Pins, ws: seq<PinWrite>): (r: Pins)
    requires |p.digits| == DigitCount
    ensures |r.digits| == DigitCount
    decreases |ws|
  {
    if ws == [] then p else AppliedAll(Applied(p, ws[0]), ws[1..])
  }

  /** display_scan_step's writes for cursor c showing pattern: digits off, segments off, segments set, digit on. */
  function ScanWrites(c: int, pattern: bv8): seq<PinWrite> {
    [AllDigitsOff, AllSegmentsOff, SegmentsTo(pattern), DigitOn(c)]
  }

  /** Every enabled digit is c and the segment lines carry c's pattern. */
  predicate ShowsOnly(p: Pins, c: int, pattern: bv8) {
    forall i :: 0 <= i < |p.digits| && p.digits[i] ==> i == c && p.segments == pattern
  }

  /** The outputs after each write of ws, in order. */
  function States(p: Pins, ws: seq<PinWrite>): (qs: seq<Pins>)
    requires |p.digits| == DigitCount
    ensures |qs| == |ws|
    decreases |ws|
  {
    if ws == [] then [] else [Applied(p, ws[0])] + States(Applied(p, ws[0]), ws[1..])
  }

  /** Anti-ghosting: after each write of a scan step the outputs never light a
      digit with a pattern that is not its own, and the step ends with exactly
      digit c enabled carrying c's pattern. */
  lemma NoGhosting(p: Pins, c: int, pattern: bv8)
    requires |p.digits| == DigitCount && 0 <= c < DigitCount
    ensures forall q :: q in States(p, ScanWrites(c, pattern)) ==> ShowsOnly(q, c, pattern)
    ensures AppliedAll(p, ScanWrites(c, pattern)) == Pins(OneHot(c), pattern)
  {
    var p1 := Applied(p, AllDigitsOff);
    var p2 := Applied(p1, AllSegmentsOff);
    var p3 := Applied(p2, SegmentsTo(pattern));
    var p4 := Applied(p3, DigitOn(c));
    assert States(p3, [DigitOn(c)]) == [p4];
    assert States(p2, [SegmentsTo(pattern), DigitOn(c)]) == [p3, p4];
    assert States(p1, [AllSegmentsOff, SegmentsTo(pattern), DigitOn(c)]) == [p2, p3, p4];
    assert States(p, ScanWrites(c, pattern)) == [p1, p2, p3, p4];
    assert AppliedAll(p3, [DigitOn(c)]) == p4;
    assert AppliedAll(p2, [SegmentsTo(pattern), DigitOn(c)]) == p4;
    assert AppliedAll(p1, [AllSegmentsOff, SegmentsTo(pattern), DigitOn(c)]) == p4;
    assert p4.digits == OneHot(c);
  }

  // ---------------------------------------------------------------------
  // The driver as a value: stored value, frame, cursor and outputs.
  // ---------------------------------------------------------------------

  datatype Panel = Panel(value: int, frame: seq<bv8>, scan: int, pins: Pins)

  predicate PanelValid(p: Panel) {
    StoredValue(p.value) && |p.frame| == DigitCount && 0 <= p.scan < DigitCount && |p.pins.digits| == DigitCount
  }

  /** The driver after SevenSeg4_Init. */
  const InitPanel: Panel := Panel(MaxTenths, Image(MaxTenths), 0, Pins(AllDark, Off))

  /** SevenSeg4_SetTenths as a value: only the stored value changes. */
  function PanelSet(p: Panel, v: u16): (r: Panel)
    requires PanelValid(p)
    ensures PanelValid(r)
    ensures r == p.(value := Stored(v))
  {
    p.(value := Stored(v))
  }

  /** SevenSeg4_Tick1ms as a value. */
  function PanelTick(p: Panel): (r: Panel)
    requires PanelValid(p)
    ensures PanelValid(r)
    ensures r.value == p.value
    ensures r.scan == (p.scan + 1) % 4
    ensures r.frame == if p.scan == 0 then Rebuilt(p.value) else p.frame
  {
    var frame := if p.scan == 0 then Rebuilt(p.value) else p.frame;
    p.(frame := frame, scan := (p.scan + 1) % 4, pins := Pins(OneHot(p.scan), frame[p.scan]))
  }

  /** The outputs a tick leaves are those of its four writes in order, and
      none of the writes lights a digit with another digit's pattern. */
  lemma TickWrites(p: Panel)
    requires PanelValid(p)
    ensures var r := PanelTick(p); var ws := ScanWrites(p.scan, r.frame[p.scan]);
      r.pins == AppliedAll(p.pins, ws) &&
      forall q :: q in States(p.pins, ws) ==> ShowsOnly(q, p.scan, r.frame[p.scan])
  {
    var r := PanelTick(p);
    NoGhosting(p.pins, p.scan, r.frame[p.scan]);
  }

  /** Ticks of the driver with a SetTenths before each: before tick i the value vs[i] is set.
      Returns the outputs left by each tick. */
  function Drive(p: Panel, vs: seq<u16>): (outs: seq<Pins>)
    requires PanelValid(p)
    ensures |outs| == |vs|
    decreases |vs|, 1
  {
    if vs == [] then [] else DriveAfter(p, vs)
  }

  /** Drive for a non-empty vs: the first tick, then the others. Kept apart
      from Drive so that the verifier only expands a tick when a proof needs it. */
  function DriveAfter(p: Panel, vs: seq<u16>): (outs: seq<Pins>)
    requires PanelValid(p) && vs != []
    ensures |outs| == |vs|
    decreases |vs|, 0
  {
    var q := SetAndTick(p, vs[0]);
    [q.pins] + Drive(q, vs[1..])
  }

  /** The driver after Drive(p, vs). */
  function Driven(p: Panel, vs: seq<u16>): (r: Panel)
    requires PanelValid(p)
    ensures PanelValid(r)
    decreases |vs|, 1
  {
    if vs == [] then p else DrivenAfter(p, vs)
  }

  /** Driven for a non-empty vs, kept apart like DriveAfter. */
  function DrivenAfter(p: Panel, vs: seq<u16>): (r: Panel)
    requires PanelValid(p) && vs != []
    ensures PanelValid(r)
    decreases |vs|, 0
  {
    Driven(SetAndTick(p, vs[0]), vs[1..])
  }

  /** One tick after a SetTenths, as Drive and Driven take it. */
  function SetAndTick(p: Panel, v: u16): (r: Panel)
    requires PanelValid(p)
    ensures PanelValid(r)
    ensures r.scan == (p.scan + 1) % 4
    ensures r.frame == if p.scan == 0 then Rebuilt(Stored(v)) else p.frame
    ensures r.pins == Pins(OneHot(p.scan), r.frame[p.scan])
  {
    PanelTick(PanelSet(p, v))
  }

  /** The outputs of the scan steps from cursor c to the end of the cycle, on frame f. */
  function CycleOutputs(c: int, f: seq<bv8>): (outs: seq<Pins>)
    requires 0 <= c <= DigitCount && |f| == DigitCount
    ensures |outs| == DigitCount - c
    decreases DigitCount - c
  {
    if c == DigitCount then [] else [Pins(OneHot(c), f[c])] + CycleOutputs(c + 1, f)
  }

  /** Within a cycle, after the boundary, the frame is left alone whatever is set:
      the remaining steps light the remaining digits from the same frame. */
  lemma {:induction false} MidCycle(q: Panel, vs: seq<u16>)
    requires PanelValid(q) && 1 <= q.scan && |vs| == DigitCount - q.scan
    ensures Drive(q, vs) == CycleOutputs(q.scan, q.frame)
    ensures Driven(q, vs).scan == 0 && Driven(q, vs).frame == q.frame
    decreases |vs|
  {
    DriveStep(q, vs);
    var r := SetAndTick(q, vs[0]);
    if q.scan < 3 {
      MidCycle(r, vs[1..]);
      assert CycleOutputs(q.scan, q.frame) == [r.pins] + CycleOutputs(r.scan, r.frame);
    } else {
      assert vs[1..] == [];
    }
  }

  /** Tear-free refresh: over one scan cycle that starts at the boundary, the
      four steps light digits 0, 1, 2, 3 in turn with the frame of the value
      set before the first step, whatever is set before the other three; the
      frame is not touched again until the next boundary. */
  lemma TearFreeCycle(p: Panel, vs: seq<u16>)
    requires PanelValid(p) && p.scan == 0 && |vs| == 4
    ensures Drive(p, vs) == CycleOutputs(0, Rebuilt(Stored(vs[0])))
    ensures Driven(p, vs).scan == 0 && Driven(p, vs).frame == Rebuilt(Stored(vs[0]))
  {
    var f := Rebuilt(Stored(vs[0]));
    var q := SetAndTick(p, vs[0]);
    assert PanelValid(q) && q.scan == 1 && q.frame == f;
    DriveStep(p, vs);
    MidCycle(q, vs[1..]);
    assert CycleOutputs(0, f) == [q.pins] + CycleOutputs(1, f);
  }

  /** One unfolding of Drive and Driven. */
  lemma DriveStep(p: Panel, vs: seq<u16>)
    requires PanelValid(p) && vs != []
    ensures Drive(p, vs) == [SetAndTick(p, vs[0]).pins] + Drive(SetAndTick(p, vs[0]), vs[1..])
    ensures Driven(p, vs) == Driven(SetAndTick(p, vs[0]), vs[1..])
  {
  }

  /** BLANK darkens the whole frame at the next boundary whatever was shown before,
      and a later numeric value is restored at the boundary after that. */
  lemma BlankThenNumber(p: Panel, v: u16)
    requires PanelValid(p) && p.scan == 0 && v != Blank
    ensures Driven(p, [Blank, Blank, Blank, Blank]).frame == DarkFrame
    ensures Driven(p, [Blank, Blank, Blank, Blank, v]).frame == Image(Stored(v))
  {
    var b := [Blank, Blank, Blank, Blank];
    TearFreeCycle(p, b);
    var q := Driven(p, b);
    DrivenAppend(p, b, [v]);
    assert b + [v] == [Blank, Blank, Blank, Blank, v];
    DriveStep(q, [v]);
    assert Driven(q, [v]) == SetAndTick(q, v);
  }

  /** Driving xs and then ys is driving xs + ys. */
  lemma {:induction false} DrivenAppend(p: Panel, xs: seq<u16>, ys: seq<u16>)
    requires PanelValid(p)
    ensures Driven(p, xs + ys) == Driven(Driven(p, xs), ys)
    decreases |xs|
  {
    if xs == [] {
      assert xs + ys == ys;
    } else {
      assert (xs + ys)[0] == xs[0] && (xs + ys)[1..] == xs[1..] + ys;
      DrivenAppend(SetAndTick(p, xs[0]), xs[1..], ys);
    }
  }

  // ---------------------------------------------------------------------
  // The driver object.
  // ---------------------------------------------------------------------

  class Display {
    /** g_disp_tenths */
    var value: u16
    /** disp_buf[4] */
    const buf: array<bv8>
    /** scan_idx */
    var scan: int
    /** The four digit-enable outputs. */
    var digits: seq<bool>
    /** The eight segment outputs (bit 7 = decimal point). */
    var segments: bv8
    /** Every output write made so far, in order. */
    ghost var trace: seq<PinWrite>

    ghost predicate Valid()
      reads this
    {
      buf.Length == DigitCount && 0 <= scan < DigitCount && StoredValue(value) && |digits| == DigitCount
    }

    /** The driver's state as a value. */
    ghost function Model(): Panel
      reads this, buf
    {
      Panel(value, buf[..], scan, Pins(digits, segments))
    }

    /** SevenSeg4_Init: cursor 0, value 1000, outputs dark, frame of 1000. */
    constructor ()
      ensures Valid() && fresh(buf)
      ensures Model() == InitPanel
      ensures trace == [AllDigitsOff, AllSegmentsOff]
    {
      buf := new bv8[4];
      value := 0;
      digits := AllDark;
      segments := Off;
      trace := [];
      new;
      scan := 0;
      value := MaxTenths;
      DigitsAllOff();
      SegmentsAllOff();
      UpdateFromTenths(value);
    }

    /** digits_all_off */
    method DigitsAllOff()
      requires |digits| == DigitCount
      modifies this`digits, this`trace
      ensures Pins(digits, segments) == Applied(old(Pins(digits, segments)), AllDigitsOff)
      ensures trace == old(trace) + [AllDigitsOff]
    {
      digits := AllDark;
      trace := trace + [AllDigitsOff];
    }

    /** set_segments_all_off */
    method SegmentsAllOff()
      requires |digits| == DigitCount
      modifies this`segments, this`trace
      ensures Pins(digits, segments) == Applied(old(Pins(digits, segments)), AllSegmentsOff)
      ensures trace == old(trace) + [AllSegmentsOff]
    {
      segments := Off;
      trace := trace + [AllSegmentsOff];
    }

    /** set_segments_from_pattern */
    method SegmentsFromPattern(pattern: bv8)
      requires |digits| == DigitCount
      modifies this`segments, this`trace
      ensures Pins(digits, segments) == Applied(old(Pins(digits, segments)), SegmentsTo(pattern))
      ensures trace == old(trace) + [SegmentsTo(pattern)]
    {
      segments := pattern;
      trace := trace + [SegmentsTo(pattern)];
    }

    /** digit_on: indexes outside 0..3 are ignored. */
    method DigitOnAt(i: int)
      requires |digits| == DigitCount
      modifies this`digits, this`trace
      ensures Pins(digits, segments) == Applied(old(Pins(digits, segments)), DigitOn(i))
      ensures trace == old(trace) + [DigitOn(i)]
    {
      if 0 <= i < DigitCount {
        digits := digits[i := true];
      }
      trace := trace + [DigitOn(i)];
    }

    /** display_scan_step: the anti-ghosting sequence for the cursor's digit, then the cursor advances. */
    method ScanStep()
      requires Valid()
      modifies this`digits, this`segments, this`scan, this`trace
      ensures Valid()
      ensures scan == (old(scan) + 1) % 4
      ensures trace == old(trace) + ScanWrites(old(scan), buf[old(scan)])
      ensures Pins(digits, segments) == AppliedAll(old(Pins(digits, segments)), ScanWrites(old(scan), buf[old(scan)]))
      ensures Pins(digits, segments) == Pins(OneHot(old(scan)), buf[old(scan)])
    {
      ghost var p0 := Pins(digits, segments);
      var c := scan;
      DigitsAllOff();
      SegmentsAllOff();
      SegmentsFromPattern(buf[c]);
      DigitOnAt(c);
      scan := (scan + 1) % 4;
      NoGhosting(p0, c, buf[c]);
      var ws := ScanWrites(c, buf[c]);
      assert Pins(digits, segments) == Applied(Applied(Applied(Applied(p0, ws[0]), ws[1]), ws[2]), ws[3]);
      assert ws[1..][1..] == ws[2..] && ws[2..][1..] == ws[3..] && ws[3..][1..] == [];
    }

    /** update_display_from_tenths: writes the frame of t into the buffer. */
    method UpdateFromTenths(t: u16)
      requires buf.Length == DigitCount
      modifies buf
      ensures buf[..] == Image(t)
    {
      var hundreds := (t / 1000) % 10;
      var tens := (t / 100) % 10;
      var ones := (t / 10) % 10;
      var tenths := t % 10;
      buf[0] := SegLut(hundreds + 1);
      buf[1] := SegLut(tens + 1);
      buf[2] := SegLut(ones + 1) | DecimalPoint;
      buf[3] := SegLut(tenths + 1);
      assert buf[..] == Frame(hundreds, tens, ones, tenths);
    }

    /** SevenSeg4_SetTenths: BLANK is stored as is, anything else clamped to 1000;
        nothing is shown until the next cycle boundary. */
    method SetTenths(v: u16)
      requires Valid()
      modifies this`value
      ensures Valid()
      ensures value == Stored(v)
      ensures Model() == PanelSet(old(Model()), v)
    {
      if v == Blank {
        value := Blank;
        return;
      }
      var t := v;
      if t > MaxTenths {
        t := MaxTenths;
      }
      value := t;
    }

    /** SevenSeg4_Tick1ms: rebuild the frame at the cycle boundary, then one scan step. */
    method Tick()
      requires Valid()
      modifies this`digits, this`segments, this`scan, this`trace, buf
      ensures Valid()
      ensures Model() == PanelTick(old(Model()))
      ensures old(scan) != 0 ==> buf[..] == old(buf[..])
      ensures trace == old(trace) + ScanWrites(old(scan), buf[old(scan)])
    {
      if scan == 0 {
        if value == Blank {
          buf[0] := SegLut(0);
          buf[1] := SegLut(0);
          buf[2] := SegLut(0);
          buf[3] := SegLut(0);
        } else {
          UpdateFromTenths(value);
        }
      }
      assert buf[..] == if old(scan) == 0 then Rebuilt(value) else old(buf[..]);
      ScanStep();
    }
  }
}
