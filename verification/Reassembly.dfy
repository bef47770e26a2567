/** Messages sent in several packages. */
module Reassembly {
  import opened Assembly
  import opened BitConverter
  import opened FrameRuns
  import opened Frames
  import opened Runs

  /** Frame i + 1 of a message in k packages, good or damaged. */
  predicate Numbered(f: seq<byte>, i: nat, k: nat) {
    Framed(f) && PackageOf(f) == i + 1 && PackagesOf(f) == k
  }

  /** The checksum is right, and there is room for it behind the header. */
  predicate Sound(f: seq<byte>) {
    CrcOk(f) && |f| >= HEADER_LENGTH + 3
  }

  predicate IsPackage(f: seq<byte>, i: nat, k: nat) {
    Numbered(f, i, k) && Sound(f)
  }

  /** All the frames of a message, from number i + 1 on, in order. */
  predicate NumberedFrom(frames: seq<seq<byte>>, i: nat, k: nat) {
    i + |frames| == k && forall j :: 0 <= j < |frames| ==> Numbered(frames[j], i + j, k)
  }

  /** The same, all of them sound. */
  predicate PackagesFrom(frames: seq<seq<byte>>, i: nat, k: nat) {
    i + |frames| == k && forall j :: 0 <= j < |frames| ==> IsPackage(frames[j], i + j, k)
  }

  function Payloads(frames: seq<seq<byte>>): seq<byte> {
    if frames == [] then [] else PayloadOf(frames[0]) + Payloads(frames[1..])
  }

  lemma TakePackage(a: Assembly, f: seq<byte>, i: nat, k: nat)
    requires IsPackage(f, i, k) && a.Gathering?
    requires i == 0 ==> a == Gathering(k * PACKAGE_SIZE, [])
    requires |a.got| + |PayloadOf(f)| <= a.room
    ensures Take(a, f) ==
      if i + 1 == k then (Idle, Delivered(MessageOf(f, a.got + PayloadOf(f))))
      else (a.(got := a.got + PayloadOf(f)), Quiet)
  {
    hide CrcOk;
  }

  lemma PackagesSplit(frames: seq<seq<byte>>, i: nat, k: nat)
    requires frames != [] && PackagesFrom(frames, i, k)
    ensures IsPackage(frames[0], i, k) && PackagesFrom(frames[1..], i + 1, k)
    ensures i < k && (|frames| == 1 <==> i + 1 == k)
  {
    hide IsPackage;
    assert IsPackage(frames[0], i + 0, k);
    assert forall j :: 0 <= j < |frames| - 1 ==> frames[1..][j] == frames[j + 1];
  }

  lemma TakeLastPackage(a: Assembly, f: seq<byte>, i: nat)
    requires IsPackage(f, i, i + 1) && a.Gathering?
    requires i == 0 ==> a == Gathering(PACKAGE_SIZE, [])
    requires |a.got| + |PayloadOf(f)| <= a.room
    ensures TakeAll(a, [f]) == Run(Idle, [MessageOf(f, a.got + PayloadOf(f))], false)
  {
    hide Take, IsPackage, MessageOf, PayloadOf;
    TakePackage(a, f, i, i + 1);
    RunOne(Take, a, f);
  }

  lemma TakeEarlierPackage(a: Assembly, frames: seq<seq<byte>>, i: nat, k: nat)
    requires frames != [] && IsPackage(frames[0], i, k) && i + 1 < k && a.Gathering?
    requires i == 0 ==> a == Gathering(k * PACKAGE_SIZE, [])
    requires |a.got| + |PayloadOf(frames[0])| <= a.room
    ensures TakeAll(a, frames) == TakeAll(a.(got := a.got + PayloadOf(frames[0])), frames[1..])
  {
    hide Take, IsPackage, MessageOf, PayloadOf;
    TakePackage(a, frames[0], i, k);
    TakeFirst(a, frames);
  }

  /** The remaining packages of a message, while there is room for them. */
  lemma {:induction false} GatherRest(a: Assembly, frames: seq<seq<byte>>, i: nat, k: nat)
    requires frames != [] && PackagesFrom(frames, i, k) && a.Gathering?
    requires i == 0 ==> a == Gathering(k * PACKAGE_SIZE, [])
    requires |a.got| + |Payloads(frames)| <= a.room
    ensures TakeAll(a, frames) ==
      Run(Idle, [MessageOf(frames[|frames| - 1], a.got + Payloads(frames))], false)
    decreases |frames|
  {
    hide RunAll, Take, IsPackage, PayloadOf;
    PackagesSplit(frames, i, k);
    PayloadsSplit(frames);
    var f, rest := frames[0], frames[1..];
    if rest == [] {
      assert frames == [f] && Payloads(frames) == PayloadOf(f);
      TakeLastPackage(a, f, i);
    } else {
      var b := a.(got := a.got + PayloadOf(f));
      TakeEarlierPackage(a, frames, i, k);
      GatherRest(b, rest, i + 1, k);
      assert b.got + Payloads(rest) == a.got + Payloads(frames);
      assert rest[|rest| - 1] == frames[|frames| - 1];
    }
  }

  lemma PayloadsSplit(frames: seq<seq<byte>>)
    requires frames != []
    ensures Payloads(frames) == PayloadOf(frames[0]) + Payloads(frames[1..])
  {}

  // ---------- packages that are damaged or do not fit ----------

  /** From which package on the payloads are kept, with a given room: behind the last one that
      was damaged or did not fit. */
  function KeptFrom(frames: seq<seq<byte>>, room: nat): (r: nat)
    ensures r <= |frames|
  {
    if frames == [] then 0
    else
      var init, last := frames[..|frames| - 1], frames[|frames| - 1];
      var j := KeptFrom(init, room);
      if Sound(last) && |Payloads(init[j..])| + |PayloadOf(last)| <= room then j else |frames|
  }

  lemma {:induction false} PayloadsSnoc(frames: seq<seq<byte>>, f: seq<byte>)
    ensures Payloads(frames + [f]) == Payloads(frames) + PayloadOf(f)
  {
    hide PayloadOf;
    if frames == [] {
      assert frames + [f] == [f] && [f][1..] == [];
    } else {
      assert (frames + [f])[1..] == frames[1..] + [f];
      PayloadsSnoc(frames[1..], f);
    }
  }

  /** The kept payloads. */
  function Kept(frames: seq<seq<byte>>, room: nat): seq<byte> {
    Payloads(frames[KeptFrom(frames, room)..])
  }

  lemma KeptOneMore(frames: seq<seq<byte>>, f: seq<byte>, room: nat)
    ensures var fits := Sound(f) && |Kept(frames, room)| + |PayloadOf(f)| <= room;
      && Kept(frames + [f], room) == (if fits then Kept(frames, room) + PayloadOf(f) else [])
      && (KeptFrom(frames + [f], room) == |frames| + 1 <==> !fits)
    ensures Kept([], room) == []
  {
    hide PayloadOf, Sound;
    var more := frames + [f];
    assert more[..|more| - 1] == frames && more[|more| - 1] == f;
    var j := KeptFrom(frames, room);
    assert more[j..] == frames[j..] + [f];
    PayloadsSnoc(frames[j..], f);
    assert more[|more|..] == [];
  }

  /** The packages of a message in order, but not all of them yet. */
  predicate NumberedTo(frames: seq<seq<byte>>, k: nat) {
    |frames| <= k && forall j :: 0 <= j < |frames| ==> Numbered(frames[j], j, k)
  }

  lemma TakeAny(a: Assembly, f: seq<byte>, i: nat, k: nat)
    requires Numbered(f, i, k)
    requires i > 0 ==> a.Gathering? && a.room == k * PACKAGE_SIZE
    ensures var got := if i == 0 then [] else a.got;
      Take(a, f) ==
        if !Sound(f) || |got| + |PayloadOf(f)| > k * PACKAGE_SIZE then (Gathering(k * PACKAGE_SIZE, []), Quiet)
        else if i + 1 == k then (Idle, Delivered(MessageOf(f, got + PayloadOf(f))))
        else (Gathering(k * PACKAGE_SIZE, got + PayloadOf(f)), Quiet)
  {
    hide CrcOk;
  }

  lemma TakeAllSnoc(a: Assembly, frames: seq<seq<byte>>, f: seq<byte>)
    requires !TakeAll(a, frames).faulted
    ensures var r := TakeAll(a, frames); var (a1, o) := Take(r.state, f);
      TakeAll(a, frames + [f]) == Run(a1, r.out + Reports(o), false)
  {
    hide Take;
    RunAppend(Take, a, frames, [f]);
    RunOne(Take, TakeAll(a, frames).state, f);
  }

  /** The machine after some packages of a message: nothing reported, the kept payloads
      gathered. */
  predicate Gathered(r: Run<Assembly, Message>, frames: seq<seq<byte>>, k: nat) {
    && !r.faulted && r.out == []
    && (frames != [] ==> r.state == Gathering(k * PACKAGE_SIZE, Kept(frames, k * PACKAGE_SIZE)))
  }

  /** The machine after one more frame, which is sound and fits or not. */
  lemma GatheredOneMore(a: Assembly, frames: seq<seq<byte>>, f: seq<byte>, k: nat)
    requires Gathered(TakeAll(a, frames), frames, k) && Numbered(f, |frames|, k)
    ensures var (room, got) := (k * PACKAGE_SIZE, Kept(frames, k * PACKAGE_SIZE));
      TakeAll(a, frames + [f]) ==
        if !Sound(f) || |got| + |PayloadOf(f)| > room then Run(Gathering(room, []), [], false)
        else if |frames| + 1 == k then Run(Idle, [MessageOf(f, got + PayloadOf(f))], false)
        else Run(Gathering(room, got + PayloadOf(f)), [], false)
  {
    var r := TakeAll(a, frames);
    GatheredIs(r, frames, k);
    assert Framed(f);
    hide *;
    TakeAny(r.state, f, |frames|, k);
    TakeAllSnoc(a, frames, f);
    ReportsIs(MessageOf(f, Kept(frames, k * PACKAGE_SIZE) + PayloadOf(f)));
  }

  lemma GatheredIs(r: Run<Assembly, Message>, frames: seq<seq<byte>>, k: nat)
    requires Gathered(r, frames, k)
    ensures !r.faulted && r.out == []
    ensures frames != [] ==> r.state == Gathering(k * PACKAGE_SIZE, Kept(frames, k * PACKAGE_SIZE))
    ensures Kept([], k * PACKAGE_SIZE) == []
  {}

  lemma ReportsIs(x: Message)
    ensures Reports(Delivered(x)) == [x] == [] + [x] && Reports<Message>(Quiet) == [] == [] + Reports<Message>(Quiet)
  {}

  lemma OneMorePackage(a: Assembly, frames: seq<seq<byte>>, f: seq<byte>, k: nat)
    requires Gathered(TakeAll(a, frames), frames, k) && Numbered(f, |frames|, k)
    ensures var room := k * PACKAGE_SIZE;
      var more := frames + [f];
      if |more| == k && KeptFrom(more, room) < |more| then TakeAll(a, more).out == [MessageOf(f, Kept(more, room))]
      else Gathered(TakeAll(a, more), more, k)
  {
    assert Framed(f);
    hide TakeAll, Framed, Numbered, Sound, PayloadOf, MessageOf, Kept, KeptFrom;
    GatheredOneMore(a, frames, f, k);
    KeptOneMore(frames, f, k * PACKAGE_SIZE);
  }

  lemma TakeNone(a: Assembly, k: nat)
    ensures Gathered(TakeAll(a, []), [], k)
  {}

  /** Before the last package nothing is reported. */
  lemma {:induction false} EarlierPackages(a: Assembly, frames: seq<seq<byte>>, k: nat)
    requires NumberedTo(frames, k) && |frames| < k
    ensures Gathered(TakeAll(a, frames), frames, k)
    decreases |frames|
  {
    hide Take, TakeAll, Numbered, Gathered, Framed, CrcOk;
    if frames == [] {
      TakeNone(a, k);
    } else {
      var init, last := frames[..|frames| - 1], frames[|frames| - 1];
      assert Numbered(last, |init|, k) && forall j :: 0 <= j < |init| ==> init[j] == frames[j];
      EarlierPackages(a, init, k);
      assert init + [last] == frames;
      OneMorePackage(a, init, last, k);
    }
  }

  lemma NumbersInOrder(frames: seq<seq<byte>>, k: nat, n: nat)
    requires NumberedFrom(frames, 0, k) && n < |frames|
    ensures NumberedTo(frames[..n], k) && n < k && Numbered(frames[n], n, k) && |frames| == k
  {
    hide Numbered;
    assert Numbered(frames[n], 0 + n, k);
    forall j | 0 <= j < n ensures Numbered(frames[..n][j], j, k) {
      assert Numbered(frames[j], 0 + j, k);
    }
  }

  /** Nothing is reported before the last package. */
  lemma NothingBeforeTheLast(a: Assembly, frames: seq<seq<byte>>, n: nat)
    requires n < |frames| && NumberedFrom(frames, 0, |frames|)
    ensures TakeAll(a, frames[..n]).out == []
  {
    hide TakeAll, Numbered, NumberedFrom, NumberedTo;
    NumbersInOrder(frames, |frames|, n);
    EarlierPackages(a, frames[..n], |frames|);
  }

  /** What comes of the packages of a message, each good or damaged and of any size: the
      payloads behind the last one that was damaged or did not fit, reported as if they were
      all, or nothing if that was the last package. */
  lemma MessageOfWhatIsKept(a: Assembly, frames: seq<seq<byte>>)
    requires frames != [] && NumberedFrom(frames, 0, |frames|)
    ensures var j := KeptFrom(frames, |frames| * 250);
      Numbered(frames[|frames| - 1], |frames| - 1, |frames|) &&
      TakeAll(a, frames).out ==
        if j == |frames| then [] else [MessageOf(frames[|frames| - 1], Payloads(frames[j..]))]
  {
    hide TakeAll, Numbered, NumberedFrom, NumberedTo, KeptFrom, Payloads, MessageOf;
    var k := |frames|;
    NumbersInOrder(frames, k, k - 1);
    EarlierPackages(a, frames[..k - 1], k);
    assert frames[..k - 1] + [frames[k - 1]] == frames;
    OneMorePackage(a, frames[..k - 1], frames[k - 1], k);
  }

  predicate AllSound(frames: seq<seq<byte>>) {
    forall j :: 0 <= j < |frames| ==> Sound(frames[j])
  }

  lemma AllSoundSnoc(frames: seq<seq<byte>>, f: seq<byte>)
    ensures AllSound(frames + [f]) <==> AllSound(frames) && Sound(f)
  {
    hide Sound;
    assert (frames + [f])[|frames|] == f;
    assert forall j :: 0 <= j < |frames| ==> (frames + [f])[j] == frames[j];
  }

  lemma KeptFromSteps(frames: seq<seq<byte>>, f: seq<byte>, room: nat)
    ensures KeptFrom(frames + [f], room) == 0 <==>
      Sound(f) && KeptFrom(frames, room) == 0 && |Payloads(frames)| + |PayloadOf(f)| <= room
  {
    var more := frames + [f];
    assert more[..|more| - 1] == frames && more[|more| - 1] == f;
    assert frames[0..] == frames;
    hide Sound, PayloadOf, Payloads;
  }

  /** What is kept fits, and it is everything exactly if all packages are sound and fit. */
  lemma {:induction false} KeptFits(frames: seq<seq<byte>>, room: nat)
    ensures |Kept(frames, room)| <= room
    ensures KeptFrom(frames, room) == 0 <==> AllSound(frames) && |Payloads(frames)| <= room
  {
    if frames != [] {
      hide *;
      var init, last := frames[..|frames| - 1], frames[|frames| - 1];
      assert init + [last] == frames;
      KeptFits(init, room);
      KeptOneMore(init, last, room);
      KeptFromSteps(init, last, room);
      PayloadsSnoc(init, last);
      AllSoundSnoc(init, last);
    }
  }

  lemma PackagesAreNumbered(frames: seq<seq<byte>>, i: nat, k: nat)
    requires PackagesFrom(frames, i, k)
    ensures NumberedFrom(frames, i, k) && AllSound(frames) && forall j :: 0 <= j < |frames| ==> IsPackage(frames[j], i + j, k)
  {}

  /** The packages of a message, sent in order with good checksums, lead to exactly one
      callback, with all their payloads in order and the type and id of the last one; and
      this holds exactly when the payloads come to no more than 250 bytes a package. */
  lemma ReassemblyComplete(a: Assembly, frames: seq<seq<byte>>)
    requires frames != [] && PackagesFrom(frames, 0, |frames|)
    ensures IsPackage(frames[|frames| - 1], |frames| - 1, |frames|)
    ensures |Payloads(frames)| <= |frames| * 250 <==>
      TakeAll(a, frames).out == [MessageOf(frames[|frames| - 1], Payloads(frames))]
  {
    PackagesAreNumbered(frames, 0, |frames|);
    MessageOfWhatIsKept(a, frames);
    KeptFits(frames, |frames| * PACKAGE_SIZE);
    hide TakeAll, IsPackage, Numbered, AllSound, PackagesFrom, KeptFrom, Payloads;
    assert IsPackage(frames[|frames| - 1], 0 + (|frames| - 1), |frames|);
    assert frames[0..] == frames;
  }

  lemma TakeDamaged(a: Assembly, f: seq<byte>, i: nat, k: nat)
    requires Framed(f) && !CrcOk(f) && PackageOf(f) == i + 1 && PackagesOf(f) == k
    requires i > 0 ==> a.Gathering? && a.room == k * PACKAGE_SIZE
    ensures Take(a, f) == (Gathering(k * PACKAGE_SIZE, []), Quiet) && Reports(Take(a, f).1) == []
  {
    hide CrcOk;
  }

  /** A package with a bad checksum does not stop the message: what came before it is
      forgotten, and the packages after it are still reported as if they were all. */
  lemma LostPackageTruncates(a: Assembly, bad: seq<byte>, rest: seq<seq<byte>>, i: nat, k: nat)
    requires Framed(bad) && !CrcOk(bad) && PackageOf(bad) == i + 1 && PackagesOf(bad) == k
    requires rest != [] && PackagesFrom(rest, i + 1, k)
    requires i > 0 ==> a.Gathering? && a.room == k * PACKAGE_SIZE
    requires |Payloads(rest)| <= k * PACKAGE_SIZE
    ensures TakeAll(a, [bad] + rest).out == [MessageOf(rest[|rest| - 1], Payloads(rest))]
  {
    hide Take, TakeAll, CrcOk, Framed, IsPackage, PackagesFrom, PackageOf, PackagesOf, Payloads, MessageOf, Reports;
    TakeDamaged(a, bad, i, k);
    var b := Gathering(k * PACKAGE_SIZE, []);
    TakeFirst(a, [bad] + rest);
    assert ([bad] + rest)[1..] == rest && ([bad] + rest)[0] == bad;
    GatherRest(b, rest, i + 1, k);
    assert [] + Payloads(rest) == Payloads(rest);
    var out := TakeAll(b, rest).out;
    assert [] + out == out;
  }

  // ---------- on the wire ----------

  /** A part of a frame, with noise before it, makes no callback. */
  lemma PartOfFrame(d: Decoder, n: Noisy, m: nat)
    requires d.listener && d.phase == Waiting && Framed(n.frame) && NoiseAnywhere(n.noise)
    requires m < |n.noise| + |n.frame|
    ensures var r := Decode(d, (n.noise + n.frame)[..m]); !r.faulted && r.out == []
  {
    hide Step;
    var k := m - |n.noise|;
    assert Noise(d.lastByte, n.noise);
    DecodeNoise(d, n.noise);
    hide NoiseAnywhere, Noise, Framed;
    if k <= 0 {
      assert (n.noise + n.frame)[..m] == n.noise[..m];
      assert n.noise == n.noise[..m] + n.noise[m..];
      RunAppend<Decoder, byte, Message>(Step, d, n.noise[..m], n.noise[m..]);
    } else {
      assert (n.noise + n.frame)[..m] == n.noise + n.frame[..k];
      var d1 := Decode(d, n.noise).state;
      RunAppend<Decoder, byte, Message>(Step, d, n.noise, n.frame[..k]);
      FrameStart(d1, n.frame, k);
    }
  }

  lemma FrameStart(d: Decoder, f: seq<byte>, k: nat)
    requires d.phase == Waiting && Framed(f) && 0 < k < |f|
    ensures var r := Decode(d, f[..k]); !r.faulted && r.out == []
  {
    hide Step;
    if k == 1 {
      StepsIntoHeader(d, f);
      RunOneMore<Decoder, byte, Message>(Step, d, f, 0, d, d.(lastByte := f[0]), Quiet);
    } else if k < HEADER_LENGTH {
      HeaderPrefix(d, f, k);
    } else {
      PayloadPrefix(d, f, k);
    }
  }

  lemma EarlierPackageIsSilent(a: Assembly, f: seq<byte>, i: nat, k: nat)
    requires Numbered(f, i, k) && i + 1 < k
    ensures Reports(Take(a, f).1) == []
  {
    hide CrcOk;
  }

  lemma NumbersSplit(frames: seq<seq<byte>>, i: nat, k: nat)
    requires frames != [] && NumberedFrom(frames, i, k)
    ensures Numbered(frames[0], i, k) && NumberedFrom(frames[1..], i + 1, k)
    ensures i < k && (|frames| == 1 <==> i + 1 == k)
  {
    hide Numbered;
    assert Numbered(frames[0], i + 0, k);
    assert forall j :: 0 <= j < |frames| - 1 ==> frames[1..][j] == frames[j + 1];
  }

  lemma WireSplits(line: seq<Noisy>, m: nat)
    requires line != [] && m < |Wire(line)|
    ensures var first := line[0].noise + line[0].frame;
      if m < |first| then Wire(line)[..m] == first[..m]
      else m - |first| < |Wire(line[1..])| && Wire(line)[..m] == first + Wire(line[1..])[..m - |first|]
  {}

  /** A package before the last one passes without a callback. */
  lemma PackageInBetween(d: Decoder, n: Noisy, i: nat, k: nat, rest: seq<byte>)
    requires d.listener && d.phase == Waiting && NoiseAnywhere(n.noise)
    requires Numbered(n.frame, i, k) && i + 1 < k
    ensures var d1 := Decode(d, n.noise + n.frame).state;
      d1.listener && d1.phase == Waiting && Decode(d, n.noise + n.frame + rest) == Decode(d1, rest)
  {
    NoisyFrameRefines(d, n);
    EarlierPackageIsSilent(View(d), n.frame, i, k);
    hide Step, Take, Numbered, Framed;
    RunAppend<Decoder, byte, Message>(Step, d, n.noise + n.frame, rest);
    var r := Decode(Decode(d, n.noise + n.frame).state, rest);
    assert [] + r.out == r.out;
  }

  lemma ReadableSplits(line: seq<Noisy>)
    requires line != [] && Readable(line)
    ensures Framed(line[0].frame) && NoiseAnywhere(line[0].noise) && Readable(line[1..])
    ensures FramesOf(line)[0] == line[0].frame && FramesOf(line)[1..] == FramesOf(line[1..])
    ensures Wire([]) == []
  {
    hide Framed;
  }

  /** Not before the last byte: what has arrived so far of the packages makes no callback. */
  lemma {:induction false} NothingBeforeTheLastByte(d: Decoder, line: seq<Noisy>, i: nat, k: nat, m: nat)
    requires d.listener && d.phase == Waiting && Readable(line)
    requires line != [] && NumberedFrom(FramesOf(line), i, k) && m < |Wire(line)|
    ensures var r := Decode(d, Wire(line)[..m]); !r.faulted && r.out == []
    decreases |line|
  {
    hide Decode, Numbered, NumberedFrom, Readable, Framed, Wire;
    var first, rest := line[0].noise + line[0].frame, line[1..];
    NumbersSplit(FramesOf(line), i, k);
    ReadableSplits(line);
    WireSplits(line, m);
    if m < |first| {
      PartOfFrame(d, line[0], m);
    } else {
      assert rest != [];
      var more := Wire(rest)[..m - |first|];
      PackageInBetween(d, line[0], i, k, more);
      NothingBeforeTheLastByte(Decode(d, first).state, rest, i + 1, k, m - |first|);
    }
  }

  /** The decoder, waiting, fed the packages of a message with any noise between them, makes
      the callback for what is kept of the payloads, on the last byte and not before, and
      waits again. */
  lemma ReassemblyOnTheWire(d: Decoder, line: seq<Noisy>)
    requires d.listener && d.phase == Waiting && Readable(line)
    requires line != [] && NumberedFrom(FramesOf(line), 0, |line|)
    ensures var r := Decode(d, Wire(line));
      var j := KeptFrom(FramesOf(line), |line| * PACKAGE_SIZE);
      && !r.faulted && r.state.phase == Waiting
      && r.out == if j == |line| then [] else [MessageOf(line[|line| - 1].frame, Payloads(FramesOf(line)[j..]))]
    ensures forall m :: 0 <= m < |Wire(line)| ==> Decode(d, Wire(line)[..m]).out == []
  {
    hide Step, Take, CrcOk, Framed;
    DecoderRefines(d, line);
    MessageOfWhatIsKept(View(d), FramesOf(line));
    forall m | 0 <= m < |Wire(line)| ensures Decode(d, Wire(line)[..m]).out == [] {
      NothingBeforeTheLastByte(d, line, 0, |line|, m);
    }
  }
}
