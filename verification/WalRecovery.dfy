/** What the log gives back after a restart, whole or torn, and which files it
    keeps open on the way. */
module WalRecovery {
  import opened Prelude
  import opened Digits
  import opened Wal

  ghost predicate Fitting(rs: seq<Record>) {
    forall r :: r in rs ==> |r.body| < U32_BOUND
  }

  // ---- one file

  lemma {:induction false} FramesAppend(rs: seq<Record>, r: Record)
    ensures Frames(rs + [r]) == Frames(rs) + Frame(r)
  {
    if rs == [] {
      assert [r][1..] == [];
    } else {
      FramesAppend(rs[1..], r);
      assert (rs + [r])[1..] == rs[1..] + [r];
      assert Frames(rs + [r]) == Frame(rs[0]) + (Frames(rs[1..]) + Frame(r));
    }
  }

  /** A whole record at the front of a buffer is parsed off with the length the
      mark can carry. */
  lemma ParseFront(r: Record, rest: Bytes)
    ensures var len := |r.body| % U32_BOUND;
            var p := Parse(Frame(r) + rest);
            && p != [] && p[0] == Record(r.kind, r.body[..len])
            && (|r.body| < U32_BOUND ==> p == [r] + Parse(rest))
  {
    var len, buf := |r.body| % U32_BOUND, Frame(r) + rest;
    PowersOf256();
    LittleEndianValue(len, 4);
    assert buf[..4] == LittleEndian(len, 4);
    assert buf[4] == r.kind;
    assert buf[HEADER..HEADER + len] == r.body[..len];
    if |r.body| < U32_BOUND {
      assert r.body[..len] == r.body;
      assert buf[HEADER + len..] == rest;
    }
  }

  lemma FittingSplits(rs: seq<Record>)
    requires rs != []
    ensures Fitting(rs) <==> |rs[0].body| < U32_BOUND && Fitting(rs[1..])
  {
    assert forall r :: r in rs <==> r == rs[0] || r in rs[1..];
  }

  /** Two lists of records that begin alike. */
  lemma SameTail(r: Record, rest: seq<Record>, rs: seq<Record>)
    requires rs != [] && rs[0] == r
    ensures [r] + rest == rs <==> rest == rs[1..]
  {
    assert rs == [rs[0]] + rs[1..];
    assert ([r] + rest)[1..] == rest;
  }

  /** A log file parses back to what was written exactly when every body's length
      fits the 32-bit mark. */
  lemma {:induction false} ParseFramesIff(rs: seq<Record>)
    ensures Parse(Frames(rs)) == rs <==> Fitting(rs)
  {
    if rs == [] {
      NothingParsed([]);
    } else {
      ParseFront(rs[0], Frames(rs[1..]));
      hide Parse, Frame, Fitting;
      FittingSplits(rs);
      ParseFramesIff(rs[1..]);
      if |rs[0].body| < U32_BOUND {
        SameTail(rs[0], Parse(Frames(rs[1..])), rs);
      } else {
        assert |Parse(Frames(rs))[0].body| < |rs[0].body|;
      }
    }
  }

  /** How many records lie wholly within the first `n` bytes of a log file. */
  function Whole(rs: seq<Record>, n: nat): (k: nat)
    ensures k <= |rs|
  {
    if rs == [] || n < |Frame(rs[0])| then 0 else 1 + Whole(rs[1..], n - |Frame(rs[0])|)
  }

  /** `Whole` counts exactly the records whose last byte is within reach. */
  lemma {:induction false} WholeIsExact(rs: seq<Record>, n: nat, k: nat)
    requires k <= |rs|
    ensures k <= Whole(rs, n) <==> |Frames(rs[..k])| <= n
  {
    if k > 0 {
      assert rs[..k][1..] == rs[1..][..k - 1];
      if n >= |Frame(rs[0])| { WholeIsExact(rs[1..], n - |Frame(rs[0])|, k - 1); }
    }
  }

  lemma FrameParts(r: Record)
    requires |r.body| < U32_BOUND
    ensures Frame(r) == LittleEndian(|r.body|, 4) + ([r.kind] + r.body)
  {
    hide LittleEndian;
    assert |r.body| % U32_BOUND == |r.body|;
    var mark := LittleEndian(|r.body|, 4);
    assert mark + [r.kind] + r.body == mark + ([r.kind] + r.body);
  }

  /** The mark at the front of a frame, also of a cut one. */
  lemma MarkOf(r: Record, n: nat)
    requires |r.body| < U32_BOUND && HEADER <= n <= |Frame(r)|
    ensures LittleValue(Frame(r)[..n][..4]) == |r.body|
  {
    PowersOf256();
    hide LittleEndian, LittleValue, Pow256, Frame;
    LittleEndianValue(|r.body|, 4);
    FrameParts(r);
    PrefixOfPrefix(LittleEndian(|r.body|, 4), [r.kind] + r.body, n);
  }

  lemma PrefixOfPrefix(mark: Bytes, rest: Bytes, n: nat)
    requires |mark| == 4 <= n <= 4 + |rest|
    ensures (mark + rest)[..n][..4] == mark
  {
  }

  lemma ParseCut(r: Record, n: nat)
    requires |r.body| < U32_BOUND && n < |Frame(r)|
    ensures Parse(Frame(r)[..n]) == []
  {
    if n >= HEADER { MarkOf(r, n); }
    hide LittleEndian, LittleValue;
  }

  lemma TakeAcross(a: Bytes, b: Bytes, n: nat)
    requires n <= |a| + |b|
    ensures (a + b)[..n] == if n < |a| then a[..n] else a + b[..n - |a|]
  {
  }

  /** A log file torn at any byte parses to the records wholly before the tear. */
  lemma {:induction false} TornTail(rs: seq<Record>, n: nat)
    requires Fitting(rs) && n <= |Frames(rs)|
    ensures Parse(Frames(rs)[..n]) == rs[..Whole(rs, n)]
  {
    hide Parse, Frame;
    if rs == [] {
      NothingParsed([]);
    } else {
      var first, later := Frame(rs[0]), Frames(rs[1..]);
      assert rs[0] in rs;
      TakeAcross(first, later, n);
      if n < |first| {
        ParseCut(rs[0], n);
      } else {
        var m := n - |first|;
        TornTail(rs[1..], m);
        ParseFront(rs[0], later[..m]);
        assert [rs[0]] + rs[1..][..Whole(rs[1..], m)] == rs[..Whole(rs, n)];
      }
    }
  }

  lemma {:induction false} FramesLong(rs: seq<Record>)
    requires forall r :: r in rs ==> r.body != []
    ensures rs != [] ==> |Frames(rs)| > HEADER
  {
    if rs != [] { assert rs[0] in rs; }
  }

  lemma LoadSingle(w: WalState)
    requires w.open == {w.current} && w.current > 0
    ensures var file := Contents(w.disk.files, w.current);
            Load(w) == if |file| <= HEADER then [] else Parse(file)
  {
    var file := Contents(w.disk.files, w.current);
    var files, open := w.disk.files, w.open;
    assert Least(open) == w.current && open - {w.current} == {};
    assert [] + file == file && file[..|file|] == file;
    assert LoadFiles(files, {}, w.current, file) == [];
    if |file| > HEADER { assert LoadFiles(files, open, w.current, []) == Parse(file) + []; }
  }

  /** Loading a freshly opened log whose current file is torn at byte `n`. */
  lemma LoadTorn(w: WalState, rs: seq<Record>, n: nat)
    requires w.open == {w.current} && w.current > 0
    requires Fitting(rs) && (forall r :: r in rs ==> r.body != [])
    requires n <= |Frames(rs)| && Contents(w.disk.files, w.current) == Frames(rs)[..n]
    ensures Load(w) == rs[..Whole(rs, n)]
  {
    TornTail(rs, n);
    LoadSingle(w);
    if rs != [] { assert rs[0] in rs; }
  }

  /** The record parsed off the front of a buffer is framed by the bytes it came from. */
  lemma FrontRestored(buf: Bytes)
    requires |buf| >= HEADER && |buf| >= HEADER + LittleValue(buf[..4])
    ensures var len := LittleValue(buf[..4]);
            Frame(Record(buf[4], buf[HEADER..HEADER + len])) == buf[..HEADER + len]
  {
    hide LittleValue, LittleEndian;
    var len := LittleValue(buf[..4]);
    MarkRestored(buf[..4]);
    assert buf[..HEADER + len] == buf[..4] + [buf[4]] + buf[HEADER..HEADER + len];
  }

  lemma PrefixBehind(x: Bytes, buf: Bytes, n: nat)
    requires n <= |buf| && x <= buf[n..]
    ensures buf[..n] + x <= buf
  {
    assert buf[..n] + x == buf[..n + |x|];
  }

  lemma ParsedFront(buf: Bytes, r: Record, n: nat)
    requires HEADER <= n <= |buf| && Parse(buf) == [r] + Parse(buf[n..]) && Frame(r) == buf[..n]
    ensures Frames(Parse(buf)) == buf[..n] + Frames(Parse(buf[n..]))
  {
    hide Parse, Frame;
    assert Parse(buf)[1..] == Parse(buf[n..]);
  }

  lemma {:induction false} ParsedPrefix(buf: Bytes)
    ensures Frames(Parse(buf)) <= buf
    decreases |buf|
  {
    hide LittleValue, LittleEndian, Frame, Frames;
    if |buf| >= HEADER && |buf| >= HEADER + LittleValue(buf[..4]) {
      var n := HEADER + LittleValue(buf[..4]);
      FrontRestored(buf);
      ParsedFront(buf, Record(buf[4], buf[HEADER..n]), n);
      hide Parse;
      ParsedPrefix(buf[n..]);
      PrefixBehind(Frames(Parse(buf[n..])), buf, n);
    } else {
      NothingParsed(buf);
    }
  }

  lemma NothingParsed(buf: Bytes)
    requires |buf| < HEADER || |buf| < HEADER + LittleValue(buf[..4])
    ensures Parse(buf) == [] && Frames(Parse(buf)) == []
  {
  }

  lemma MarkRestored(mark: Bytes)
    requires |mark| == 4
    ensures LittleValue(mark) < U32_BOUND && LittleEndian(LittleValue(mark), 4) == mark
  {
    LittleDigits(mark);
    PowersOf256();
  }

  lemma LowDigit(d: byte, v: nat)
    ensures (d + 256 * v) % 256 == d && (d + 256 * v) / 256 == v
  {
  }

  lemma {:induction false} LittleDigits(b: Bytes)
    ensures LittleValue(b) < Pow256(|b|) && LittleEndian(LittleValue(b), |b|) == b
  {
    if b != [] {
      LittleDigits(b[1..]);
      LowDigit(b[0], LittleValue(b[1..]));
      assert LittleEndian(LittleValue(b), |b|) == [b[0]] + b[1..];
    }
  }

  /** Files below the current height are passed over. */
  lemma {:induction false} LoadSkips(files: map<u64, Bytes>, open: set<u64>, current: u64, live: set<u64>)
    requires live == set h | h in open && h >= current
    ensures LoadFiles(files, open, current, []) == LoadFiles(files, live, current, [])
    decreases |open|
  {
    if open != {} && Least(open) < current {
      var h := Least(open);
      hide LoadFiles, Parse;
      assert live == set x | x in open - {h} && x >= current;
      LoadSkips(files, open - {h}, current, live);
      LoadSkipsOne(files, open, current, []);
    } else {
      assert open == live;
    }
  }

  lemma LoadSkipsOne(files: map<u64, Bytes>, open: set<u64>, current: u64, buf: Bytes)
    requires open != {} && Least(open) < current
    ensures LoadFiles(files, open, current, buf) == LoadFiles(files, open - {Least(open)}, current, buf)
  {
    hide Parse;
  }

  /** Loading without a restart, with the next height's file open: because the
      buffer is not cleared between files, the two files' records come back in order
      if and only if the next file is empty, or the current one is not and the next
      file starts the two files' concatenation. Lower handles make no difference. */
  lemma LoadTwoFilesIff(w: WalState, now: seq<Record>, next: seq<Record>)
    requires 0 < w.current < U64_BOUND - 1 && {w.current, w.current + 1} <= w.open
    requires forall h :: h in w.open ==> h <= w.current + 1
    requires Contents(w.disk.files, w.current) == Frames(now) && Contents(w.disk.files, w.current + 1) == Frames(next)
    requires Fitting(now) && Fitting(next)
    requires forall r :: r in now || r in next ==> r.body != []
    ensures Load(w) == now + next <==> next == [] || (now != [] && Frames(next) <= Frames(now) + Frames(next))
  {
    LoadLive(w);
    LoadTwo(w.disk.files, w.current, Frames(now), Frames(next));
    hide Parse, LoadFiles, Load, Contents, Fitting, Frames;
    TwoParsesIff(now, next);
  }

  lemma StartsIff(a: Bytes, b: Bytes)
    ensures b <= a + b <==> (a + b)[..|b|] == b
  {
  }

  /** What parsing the two stretches of the buffer yields. */
  lemma TwoParsesIff(now: seq<Record>, next: seq<Record>)
    requires Fitting(now) && Fitting(next)
    requires forall r :: r in now || r in next ==> r.body != []
    ensures var a, b := Frames(now), Frames(next);
            (if |a| <= HEADER then [] else Parse(a) + if |b| <= HEADER then [] else Parse((a + b)[..|b|])) == now + next
            <==> next == [] || (now != [] && b <= a + b)
  {
    var a, b := Frames(now), Frames(next);
    assert Frames([]) == [];
    hide Parse, Frames, Fitting;
    FramesLong(now);
    FramesLong(next);
    ParseFramesIff(now);
    ParseFramesIff(next);
    StartsIff(a, b);
    var again := (a + b)[..|b|];
    assert |again| == |b|;
    if now != [] && next != [] {
      ParsedPrefix(again);
      SameAfter(now, Parse(again), next);
      if Parse(again) == next { SameLength(b, again); }
    } else if now != [] {
      assert now + next == now && now + [] == now;
    } else {
      assert now + next == next;
    }
  }

  lemma SameLength(x: Bytes, y: Bytes)
    requires x <= y && |x| == |y|
    ensures x == y
  {
  }

  lemma SameAfter(front: seq<Record>, x: seq<Record>, y: seq<Record>)
    ensures front + x == front + y <==> x == y
  {
    if front + x == front + y {
      assert (front + x)[|front|..] == x && (front + y)[|front|..] == y;
    }
  }

  lemma LoadLive(w: WalState)
    requires 0 < w.current < U64_BOUND - 1 && {w.current, w.current + 1} <= w.open
    requires forall h :: h in w.open ==> h <= w.current + 1
    ensures Load(w) == LoadFiles(w.disk.files, {w.current, w.current + 1}, w.current, [])
  {
    hide LoadFiles;
    LoadSkips(w.disk.files, w.open, w.current, {w.current, w.current + 1});
  }

  /** What the loop over two files computes. */
  lemma LoadTwo(files: map<u64, Bytes>, c: u64, a: Bytes, b: Bytes)
    requires c + 1 < U64_BOUND && Contents(files, c) == a && Contents(files, c + 1) == b
    ensures LoadFiles(files, {c, c + 1}, c, []) ==
            if |a| <= HEADER then [] else Parse(a) + if |b| <= HEADER then [] else Parse((a + b)[..|b|])
  {
    hide Parse, Contents;
    var d: u64 := c + 1;
    assert Least({c, d}) == c && {c, d} - {c} == {d} && Least({d}) == d && {d} - {d} == {};
    assert [] + a == a && a[..|a|] == a;
    assert LoadFiles(files, {}, c, a + b) == [];
    assert LoadFiles(files, {d}, c, a) == if |b| <= HEADER then [] else Parse((a + b)[..|b|]) + [];
  }

  /** One record now and one for the next height: the load gives back the first
      record twice and never the second. */
  lemma LoadTwoFilesRepeats(w: WalState)
    requires 0 < w.current < U64_BOUND - 1 && w.open == {w.current, w.current + 1}
    requires Contents(w.disk.files, w.current) == Frames([Record(1, [7])])
    requires Contents(w.disk.files, w.current + 1) == Frames([Record(2, [9])])
    ensures Load(w) == [Record(1, [7]), Record(1, [7])]
  {
    var now, next := [Record(1, [7])], [Record(2, [9])];
    var a, b, files := Frames(now), Frames(next), w.disk.files;
    var c, d: u64 := w.current, w.current + 1;
    assert Frame(now[0]) + [] == Frame(now[0]) && Frame(next[0]) + [] == Frame(next[0]);
    assert a == Frame(now[0]) && |a| == |b| == 6;
    assert now[1..] == [] && next[1..] == [];
    hide Parse, Frame, Frames;
    ParseFramesIff(now);
    assert Least({c, d}) == c && {c, d} - {c} == {d} && Least({d}) == d && {d} - {d} == {};
    assert [] + a == a && a[..6] == a && (a + b)[..6] == a;
    assert LoadFiles(files, {}, c, a + b) == [];
    assert LoadFiles(files, {d}, c, a) == Parse(a) + [];
  }

  // ---- a whole history of operations

  datatype Op = SaveOp(height: u64, kind: byte, msg: Bytes) | SetOp(height: u64) | Restart

  function Step(w: WalState, op: Op): WalState {
    match op
    case SaveOp(h, kind, msg) => Save(w, h, kind, msg).0
    case SetOp(h) => SetHeight(w, h)
    case Restart => var r := OpenWal(w.disk); if r.Success? then r.value else w
  }

  /** From an empty directory. */
  function Run(ops: seq<Op>): WalState {
    if ops == [] then WalState(DiskState(map[0 := []], ""), {0}, 0)
    else Step(Run(ops[..|ops| - 1]), ops[|ops| - 1])
  }

  function CurrentOf(ops: seq<Op>): u64 {
    if ops == [] then 0
    else if ops[|ops| - 1].SetOp? then ops[|ops| - 1].height
    else CurrentOf(ops[..|ops| - 1])
  }

  predicate NonDecreasing(ops: seq<Op>) {
    ops == [] ||
    var before, last := ops[..|ops| - 1], ops[|ops| - 1];
    NonDecreasing(before) && (last.SetOp? ==> CurrentOf(before) <= last.height)
  }

  /** The non-empty records saved for height `h` while it was the current or the
      next height, oldest first. */
  function SavedFor(ops: seq<Op>, h: nat): seq<Record> {
    if ops == [] then []
    else
      var before, last := ops[..|ops| - 1], ops[|ops| - 1];
      SavedFor(before, h) +
      if last.SaveOp? && last.height == h && last.msg != [] && CurrentOf(before) <= h <= CurrentOf(before) + 1
      then [Record(last.kind, last.msg)] else []
  }

  ghost predicate FileHolds(w: WalState, ops: seq<Op>, h: nat) {
    Contents(w.disk.files, h) == Frames(SavedFor(ops, h))
  }

  /** Handles and index, with `c` the current height. */
  ghost predicate HandlesOk(w: WalState, c: u64) {
    && w.current == c && c in w.open
    && (forall h :: h in w.open ==> h in w.disk.files && c - DELETE_FILE_INTERVAL <= h <= c + 1)
    && (forall h :: h in w.disk.files ==> h <= c + 1)
    && (w.disk.index == Decimal(c) || (c == 0 && w.disk.index == ""))
  }

  /** The two live files hold what was saved for them; nothing beyond was. */
  ghost predicate FilesOk(w: WalState, ops: seq<Op>) {
    var c := CurrentOf(ops);
    && FileHolds(w, ops, c) && FileHolds(w, ops, c + 1)
    && forall h: nat :: h > c + 1 ==> SavedFor(ops, h) == []
  }

  ghost predicate Consistent(w: WalState, ops: seq<Op>) {
    HandlesOk(w, CurrentOf(ops)) && FilesOk(w, ops)
  }

  lemma IndexReopens(w: WalState, ops: seq<Op>)
    requires Consistent(w, ops)
    ensures OpenWal(w.disk).Success? && OpenWal(w.disk).value.current == w.current
  {
    DecimalParses(w.current);
  }

  lemma HandlesSave(w: WalState, h: u64, kind: byte, msg: Bytes)
    requires HandlesOk(w, w.current)
    ensures HandlesOk(Save(w, h, kind, msg).0, w.current)
    ensures forall k: nat :: Contents(Save(w, h, kind, msg).0.disk.files, k) == Contents(w.disk.files, k) +
              if k == h && msg != [] && (h in w.open || h == w.current + 1) then Frame(Record(kind, msg)) else []
  {
    hide Decimal, Frame;
  }

  lemma SavedForStep(ops: seq<Op>, op: Op, h: nat)
    ensures var c: nat := CurrentOf(ops);
            SavedFor(ops + [op], h) == SavedFor(ops, h) +
              if op.SaveOp? && op.height == h && op.msg != [] && c <= h <= c + 1 then [Record(op.kind, op.msg)] else []
    ensures CurrentOf(ops + [op]) == if op.SetOp? then op.height else CurrentOf(ops)
  {
    assert (ops + [op])[..|ops|] == ops;
  }

  lemma ConsistentSave(w: WalState, ops: seq<Op>, h: u64, kind: byte, msg: Bytes)
    requires Consistent(w, ops)
    ensures Consistent(Save(w, h, kind, msg).0, ops + [SaveOp(h, kind, msg)])
  {
    hide Save, Frame, Frames, SavedFor, CurrentOf;
    var op := SaveOp(h, kind, msg);
    var all, after := ops + [op], Save(w, h, kind, msg).0;
    HandlesSave(w, h, kind, msg);
    FramesAppend(SavedFor(ops, h), Record(kind, msg));
    forall k: nat { SavedForStep(ops, op, k); }
    var c: nat := CurrentOf(ops);
    forall k: nat | k == c || k == c + 1 ensures FileHolds(after, all, k) {
      assert FileHolds(w, ops, k);
      SavedForStep(ops, op, k);
      assert k != h || msg == [] ==> SavedFor(all, k) == SavedFor(ops, k);
    }
  }

  lemma HandlesSet(w: WalState, h: u64)
    requires HandlesOk(w, w.current) && w.current <= h
    ensures HandlesOk(SetHeight(w, h), h)
  {
    hide Decimal;
  }

  /** Moving to `h` keeps every file at or above it. */
  lemma FilesKept(w: WalState, h: u64, k: nat)
    requires h <= k
    ensures Contents(SetHeight(w, h).disk.files, k) == Contents(w.disk.files, k)
  {
    hide Decimal;
  }

  lemma ConsistentSet(w: WalState, ops: seq<Op>, h: u64)
    requires Consistent(w, ops) && CurrentOf(ops) <= h
    ensures Consistent(SetHeight(w, h), ops + [SetOp(h)])
  {
    hide SetHeight, SavedFor, CurrentOf;
    var all, after := ops + [SetOp(h)], SetHeight(w, h);
    HandlesSet(w, h);
    var c: nat := CurrentOf(ops);
    forall k: nat ensures SavedFor(all, k) == SavedFor(ops, k) { SavedForStep(ops, SetOp(h), k); }
    SavedForStep(ops, SetOp(h), 0);
    FilesEmpty(w, ops);
    forall k: nat | k == h || k == h + 1 ensures FileHolds(after, all, k) {
      FilesKept(w, h, k);
      if k == c || k == c + 1 { assert FileHolds(w, ops, k); }
    }
  }

  /** Nothing exists beyond the next height. */
  lemma FilesEmpty(w: WalState, ops: seq<Op>)
    requires Consistent(w, ops)
    ensures forall k: nat :: k > CurrentOf(ops) + 1 ==> FileHolds(w, ops, k)
  {
    hide SavedFor, CurrentOf;
  }

  lemma ConsistentRestart(w: WalState, ops: seq<Op>)
    requires Consistent(w, ops)
    ensures Consistent(Step(w, Restart), ops + [Restart])
  {
    hide Decimal, ParseU64, SavedFor, CurrentOf;
    var all, after := ops + [Restart], Step(w, Restart);
    var c: nat := CurrentOf(ops);
    IndexReopens(w, ops);
    forall k: nat ensures SavedFor(all, k) == SavedFor(ops, k) { SavedForStep(ops, Restart, k); }
    SavedForStep(ops, Restart, 0);
    forall k: nat | k == c || k == c + 1 ensures FileHolds(after, all, k) {
      assert FileHolds(w, ops, k);
    }
  }

  lemma {:induction false} RunConsistent(ops: seq<Op>)
    requires NonDecreasing(ops)
    ensures Consistent(Run(ops), ops)
  {
    if ops == [] {
      assert Consistent(Run([]), []);
    } else {
      hide Save, SetHeight, Consistent;
      var before, last := ops[..|ops| - 1], ops[|ops| - 1];
      RunConsistent(before);
      assert ops == before + [last];
      match last {
        case SaveOp(h, kind, msg) => ConsistentSave(Run(before), before, h, kind, msg);
        case SetOp(h) => ConsistentSet(Run(before), before, h);
        case Restart => ConsistentRestart(Run(before), before);
      }
    }
  }

  lemma {:induction false} SavedNonEmpty(ops: seq<Op>, h: nat)
    ensures forall r :: r in SavedFor(ops, h) ==> r.body != []
  {
    if ops != [] { SavedNonEmpty(ops[..|ops| - 1], h); }
  }

  /** Recovery: reopening the directory and loading gives back, in order, exactly
      what was saved for the current height -- while it was current or next, and
      across restarts -- if and only if all those bodies are below 4 GiB. */
  lemma RecoveryIff(ops: seq<Op>)
    requires NonDecreasing(ops) && CurrentOf(ops) > 0
    ensures OpenWal(Run(ops).disk).Success?
    ensures Load(OpenWal(Run(ops).disk).value) == SavedFor(ops, CurrentOf(ops))
            <==> Fitting(SavedFor(ops, CurrentOf(ops)))
  {
    RunConsistent(ops);
    var w, c := Run(ops), CurrentOf(ops);
    IndexReopens(w, ops);
    var reopened, rs := OpenWal(w.disk).value, SavedFor(ops, c);
    assert FileHolds(w, ops, c) && Contents(reopened.disk.files, c) == Frames(rs);
    LoadSingle(reopened);
    SavedNonEmpty(ops, c);
    FramesLong(rs);
    ParseFramesIff(rs);
  }

  /** Moving to a height: the files and handles of the three heights below it stay as
      they are, older handles go and take their files with them, and a file without a
      handle is left alone. */
  lemma SetHeightExact(w: WalState, h: u64, x: u64)
    ensures var after := SetHeight(w, h);
            && after.current == h && after.disk.index == Decimal(h) && h in after.open
            && h in after.disk.files && Contents(after.disk.files, h) == Contents(w.disk.files, h)
            && (x != h && x in w.open && x + 3 >= h ==>
                  x in after.open && (x in after.disk.files <==> x in w.disk.files)
                  && Contents(after.disk.files, x) == Contents(w.disk.files, x))
            && (x in w.open && x + 3 < h ==> x !in after.open && x !in after.disk.files)
            && (x != h && x !in w.open ==>
                  x !in after.open && (x in after.disk.files <==> x in w.disk.files)
                  && Contents(after.disk.files, x) == Contents(w.disk.files, x))
  {
    hide Decimal;
  }

  /** Opening a directory: the height of its index, or 0 where that is empty; only that
      height's file is opened, and none is lost. */
  lemma OpenExact(disk: DiskState, x: u64)
    ensures OpenWal(disk).Success? <==> disk.index == "" || ParseU64(disk.index).Some?
    ensures OpenWal(disk).Success? ==>
              var w := OpenWal(disk).value;
              && w.current == (if disk.index == "" then 0 else ParseU64(disk.index).value)
              && w.open == {w.current} && w.disk.index == disk.index
              && (x in w.disk.files <==> x in disk.files || x == w.current)
              && Contents(w.disk.files, x) == Contents(disk.files, x)
  {
    hide ParseU64;
  }

  /** What a save answers: the length of the body where it is written, else 0. */
  lemma SaveAnswers(w: WalState, h: u64, kind: byte, msg: Bytes)
    ensures var (after, r) := Save(w, h, kind, msg);
            && (r == Failure(Panicked) <==> h !in w.open && w.current == 0xFFFF_FFFF_FFFF_FFFF)
            && (r != Failure(Panicked) ==>
                  r == Success(if h in w.open || h == w.current + 1 then |msg| else 0))
            && after.open == (if h !in w.open && h == w.current + 1 then w.open + {h} else w.open)
  {
    hide Frame;
  }

  lemma LoadAtZero(w: WalState)
    requires w.current == 0
    ensures Load(w) == []
  {
  }

  /** Whether the height's file has been opened since the last restart. */
  function OpenedIn(ops: seq<Op>, x: u64): bool {
    if ops == [] then x == 0
    else
      var before, last := ops[..|ops| - 1], ops[|ops| - 1];
      match last
      case SetOp(h) => x == h || OpenedIn(before, x)
      case SaveOp(h, _, _) => OpenedIn(before, x) || (h == x && x as nat == CurrentOf(before) + 1)
      case Restart => x == CurrentOf(before)
  }

  predicate StillOpen(ops: seq<Op>, x: u64) { OpenedIn(ops, x) && x + 3 >= CurrentOf(ops) }

  /** What is written for a height, oldest first: what is saved while its file is open
      or next, until the file is dropped. */
  function Written(ops: seq<Op>, x: u64): seq<Record> {
    if ops == [] then []
    else
      var before, last := ops[..|ops| - 1], ops[|ops| - 1];
      match last
      case SaveOp(h, kind, msg) =>
        if h == x && msg != [] && (StillOpen(before, x) || x as nat == CurrentOf(before) + 1)
        then Written(before, x) + [Record(kind, msg)] else Written(before, x)
      case SetOp(h) => if StillOpen(before, x) && x + 3 < h then [] else Written(before, x)
      case Restart => Written(before, x)
  }

  ghost predicate DiskExact(w: WalState, ops: seq<Op>, x: u64) {
    && w.current == CurrentOf(ops)
    && (x in w.open <==> StillOpen(ops, x))
    && Contents(w.disk.files, x) == Frames(Written(ops, x))
  }

  lemma HistoryStep(ops: seq<Op>, op: Op, x: u64)
    ensures CurrentOf(ops + [op]) == if op.SetOp? then op.height else CurrentOf(ops)
    ensures OpenedIn(ops + [op], x) ==
            if op.SetOp? then x == op.height || OpenedIn(ops, x)
            else if op.SaveOp? then OpenedIn(ops, x) || (op.height == x && x as nat == CurrentOf(ops) + 1)
            else x == CurrentOf(ops)
    ensures Written(ops + [op], x) ==
            if op.SaveOp? && op.height == x && op.msg != [] && (StillOpen(ops, x) || x as nat == CurrentOf(ops) + 1)
            then Written(ops, x) + [Record(op.kind, op.msg)]
            else if op.SetOp? && StillOpen(ops, x) && x + 3 < op.height then []
            else Written(ops, x)
  {
    assert (ops + [op])[..|ops|] == ops;
  }

  lemma DiskAfterSet(w: WalState, ops: seq<Op>, h: u64, x: u64)
    requires DiskExact(w, ops, x) && CurrentOf(ops) <= h
    ensures DiskExact(SetHeight(w, h), ops + [SetOp(h)], x)
  {
    HistoryStep(ops, SetOp(h), x);
    SetHeightExact(w, h, x);
    assert Frames([]) == [];
    hide SetHeight, Decimal, Frames, Written, OpenedIn, CurrentOf;
  }

  lemma DiskAfterSave(w: WalState, ops: seq<Op>, h: u64, kind: byte, msg: Bytes, x: u64)
    requires DiskExact(w, ops, x)
    ensures DiskExact(Save(w, h, kind, msg).0, ops + [SaveOp(h, kind, msg)], x)
  {
    HistoryStep(ops, SaveOp(h, kind, msg), x);
    SaveWrites(w, h, kind, msg, x);
    FramesAppend(Written(ops, x), Record(kind, msg));
    hide Save, Frame, Frames, Written, OpenedIn, CurrentOf;
  }

  lemma SaveWrites(w: WalState, h: u64, kind: byte, msg: Bytes, x: u64)
    ensures var after := Save(w, h, kind, msg).0;
            && after.current == w.current
            && (x in after.open <==> x in w.open || (h == x && x == w.current + 1))
            && Contents(after.disk.files, x) ==
                 if h == x && msg != [] && (x in w.open || x == w.current + 1)
                 then Contents(w.disk.files, x) + Frame(Record(kind, msg)) else Contents(w.disk.files, x)
  {
    hide Frame;
  }

  lemma DiskAfterRestart(w: WalState, ops: seq<Op>, x: u64)
    requires DiskExact(w, ops, x) && OpenWal(w.disk).Success? && OpenWal(w.disk).value.current == w.current
    ensures DiskExact(Step(w, Restart), ops + [Restart], x)
  {
    HistoryStep(ops, Restart, x);
    OpenExact(w.disk, x);
    hide OpenWal, Frames, Written, OpenedIn, CurrentOf;
  }

  /** In every run: a height is open exactly when its file was opened since the last
      restart and it is at most three below the current one, and its file holds
      exactly what was written for it. */
  lemma {:induction false} RunDiskExact(ops: seq<Op>, x: u64)
    requires NonDecreasing(ops)
    ensures DiskExact(Run(ops), ops, x)
  {
    if ops == [] {
      assert Contents(map[0 := []], x) == Frames([]);
    } else {
      var before, last := ops[..|ops| - 1], ops[|ops| - 1];
      RunDiskExact(before, x);
      assert ops == before + [last] && Run(ops) == Step(Run(before), last);
      match last {
        case SaveOp(h, kind, msg) => DiskAfterSave(Run(before), before, h, kind, msg, x);
        case SetOp(h) => DiskAfterSet(Run(before), before, h, x);
        case Restart =>
          RunConsistent(before);
          IndexReopens(Run(before), before);
          DiskAfterRestart(Run(before), before, x);
      }
      hide Run, DiskExact, Save, SetHeight, OpenWal;
    }
  }

  /** A height that was set since the last restart and is at most three below the
      current one is open, and a save for it is written. */
  lemma WindowKeeps(ops: seq<Op>, x: u64, later: seq<Op>, kind: byte, msg: Bytes)
    requires NonDecreasing(ops + [SetOp(x)] + later) && forall op | op in later :: !op.Restart?
    requires CurrentOf(ops + [SetOp(x)] + later) <= x + 3
    ensures var w := Run(ops + [SetOp(x)] + later);
            && x in w.open
            && Contents(Save(w, x, kind, msg).0.disk.files, x) ==
                 Contents(w.disk.files, x) + if msg == [] then [] else Frame(Record(kind, msg))
  {
    var all := ops + [SetOp(x)] + later;
    RunDiskExact(all, x);
    OpenedStays(ops + [SetOp(x)], later, x);
    HistoryStep(ops, SetOp(x), x);
    SaveWrites(Run(all), x, kind, msg, x);
    assert Contents(Run(all).disk.files, x) + [] == Contents(Run(all).disk.files, x);
    hide Run, Save, Frame, OpenedIn, CurrentOf;
  }

  lemma {:induction false} OpenedStays(ops: seq<Op>, later: seq<Op>, x: u64)
    requires OpenedIn(ops, x) && forall op | op in later :: !op.Restart?
    ensures OpenedIn(ops + later, x)
  {
    if later == [] {
      assert ops + later == ops;
    } else {
      var init, last := later[..|later| - 1], later[|later| - 1];
      assert ops + later == ops + init + [last] && last in later;
      OpenedStays(ops, init, x);
      HistoryStep(ops + init, last, x);
    }
  }

  /** Loading a log that has been running: what was saved for the current and the
      next height comes back in order exactly when nothing was saved for the next
      height, or something was for the current one and the next file starts the
      concatenation of both. */
  lemma RunningLoadIff(ops: seq<Op>)
    requires NonDecreasing(ops) && 0 < CurrentOf(ops) < U64_BOUND - 1 && CurrentOf(ops) + 1 in Run(ops).open
    requires Fitting(SavedFor(ops, CurrentOf(ops))) && Fitting(SavedFor(ops, CurrentOf(ops) + 1))
    ensures var now, next := SavedFor(ops, CurrentOf(ops)), SavedFor(ops, CurrentOf(ops) + 1);
            Load(Run(ops)) == now + next <==> next == [] || (now != [] && Frames(next) <= Frames(now) + Frames(next))
  {
    RunConsistent(ops);
    hide Run, SavedFor, Load, Frames, Decimal;
    var c := CurrentOf(ops);
    SavedNonEmpty(ops, c);
    SavedNonEmpty(ops, c + 1);
    assert FileHolds(Run(ops), ops, c) && FileHolds(Run(ops), ops, c + 1);
    LoadTwoFilesIff(Run(ops), SavedFor(ops, c), SavedFor(ops, c + 1));
  }

  /** Window: the current height is open, every open height lies within three
      below and one above it, and so at most five handles exist. */
  lemma OpenWindow(ops: seq<Op>)
    requires NonDecreasing(ops)
    ensures var w := Run(ops);
            && w.current == CurrentOf(ops) && w.current in w.open && |w.open| <= 5
            && forall h :: h in w.open ==> w.current - 3 <= h <= w.current + 1 && h in w.disk.files
  {
    hide Run;
    RunConsistent(ops);
    InWindow(Run(ops).open, Run(ops).current - DELETE_FILE_INTERVAL, 5);
  }

  lemma {:induction false} InWindow(s: set<u64>, low: int, n: nat)
    requires forall x :: x in s ==> low <= x < low + n
    ensures |s| <= n
  {
    if n > 0 {
      var rest := set x | x in s && x < low + n - 1;
      InWindow(rest, low, n - 1);
      if exists top :: top in s && top !in rest {
        var top :| top in s && top !in rest;
        assert s == rest + {top};
      } else {
        assert s == rest;
      }
    } else {
      assert s == {};
    }
  }

  /** A save appends one record to the file of its own height or to none; every
      other file and the index stay as they are. */
  lemma SaveTouchesOneFile(ops: seq<Op>, h: u64, kind: byte, msg: Bytes)
    requires NonDecreasing(ops)
    ensures var w := Run(ops);
            var (after, r) := Save(w, h, kind, msg);
            && after.disk.index == w.disk.index && after.current == w.current
            && (forall k: u64 :: k != h ==> Contents(after.disk.files, k) == Contents(w.disk.files, k)
                                            && (k in after.disk.files <==> k in w.disk.files))
            && (Contents(after.disk.files, h) == Contents(w.disk.files, h)
                || Contents(after.disk.files, h) == Contents(w.disk.files, h) + Frame(Record(kind, msg)))
            && (Contents(after.disk.files, h) != Contents(w.disk.files, h)
                <==> msg != [] && (h in w.open || h == w.current + 1))
  {
    hide Decimal, Run, FilesOk;
    RunConsistent(ops);
  }
}
