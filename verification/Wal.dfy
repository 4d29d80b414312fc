/** The write-ahead log (src/wal.rs) over a disk of numbered log files and one
    index file. Writes are whole; opening, seeking and syncing succeed. */
module Wal {
  import opened Prelude
  import opened Digits

  const DELETE_FILE_INTERVAL := 3
  const HEADER := 5

  datatype Record = Record(kind: byte, body: Bytes)
  datatype DiskState = DiskState(files: map<u64, Bytes>, index: string)

  /** `open` is the set of heights with an open handle. */
  datatype WalState = WalState(disk: DiskState, open: set<u64>, current: u64)

  // ---- record framing and parsing

  function Frame(r: Record): Bytes {
    LittleEndian(|r.body| % U32_BOUND, 4) + [r.kind] + r.body
  }

  function Frames(rs: seq<Record>): Bytes {
    if rs == [] then [] else Frame(rs[0]) + Frames(rs[1..])
  }

  function Parse(buf: Bytes): seq<Record>
    decreases |buf|
  {
    if |buf| < HEADER then []
    else
      var len := LittleValue(buf[..4]);
      if |buf| < HEADER + len then []
      else [Record(buf[4], buf[HEADER..HEADER + len])] + Parse(buf[HEADER + len..])
  }

  // ---- the index file's decimal number

  function Decimal(n: nat): (s: string)
    ensures s != "" && s[0] != '+'
  {
    var digit := ('0' as int + n % 10) as char;
    if n < 10 then [digit] else Decimal(n / 10) + [digit]
  }

  function DigitsValue(s: string): Option<nat> {
    if s == "" then Some(0)
    else
      var init, last := DigitsValue(s[..|s| - 1]), s[|s| - 1];
      if init.None? || last < '0' || '9' < last then None
      else Some(init.value * 10 + (last as int - '0' as int))
  }

  /** `str::parse::<u64>`: an optional plus sign, digits, no overflow. */
  function ParseU64(s: string): Option<u64> {
    var digits := if s != "" && s[0] == '+' then s[1..] else s;
    var n := DigitsValue(digits);
    if digits == "" || n.None? || n.value >= U64_BOUND then None else Some(n.value)
  }

  lemma {:induction false} DecimalParses(n: nat)
    ensures DigitsValue(Decimal(n)) == Some(n)
  {
    var s := Decimal(n);
    if n < 10 {
      assert s[..0] == "";
    } else {
      DecimalParses(n / 10);
      assert s[..|s| - 1] == Decimal(n / 10);
    }
  }

  predicate IsDigit(c: char) { '0' <= c <= '9' }

  predicate AllDigits(s: string) { forall i | 0 <= i < |s| :: IsDigit(s[i]) }

  /** Digits are read in base ten, and nothing else is read at all. */
  lemma {:induction false} DigitsReadIff(s: string, c: char)
    ensures DigitsValue(s).Some? <==> AllDigits(s)
    ensures DigitsValue("") == Some(0)
    ensures AllDigits(s) && IsDigit(c) ==>
              DigitsValue(s + [c]) == Some(DigitsValue(s).value * 10 + (c as int - '0' as int))
  {
    assert (s + [c])[..|s|] == s;
    if s != "" {
      var init, last := s[..|s| - 1], s[|s| - 1];
      DigitsReadIff(init, c);
      assert AllDigits(s) <==> AllDigits(init) && IsDigit(last);
    }
  }

  /** The index file is accepted exactly when it holds digits only, at least one, after
      at most one plus sign, of a number below 2^64. */
  lemma ParseU64Iff(s: string)
    ensures var digits := if s != "" && s[0] == '+' then s[1..] else s;
            && (ParseU64(s).Some? <==> && digits != "" && (forall c | c in digits :: IsDigit(c))
                                       && DigitsValue(digits).Some?
                                       && DigitsValue(digits).value < 0x1_0000_0000_0000_0000)
            && (ParseU64(s).Some? ==> ParseU64(s) == DigitsValue(digits))
  {
    var digits := if s != "" && s[0] == '+' then s[1..] else s;
    DigitsReadIff(digits, '0');
  }

  /** The number written has digits only, and no leading zero unless it is zero. */
  lemma {:induction false} DecimalDigits(n: nat)
    ensures AllDigits(Decimal(n))
    ensures n > 0 ==> Decimal(n)[0] != '0'
  {
    if n >= 10 { DecimalDigits(n / 10); }
  }

  // ---- the operations on values

  function Contents(files: map<u64, Bytes>, h: nat): Bytes {
    if h in files then files[h] else []
  }

  function Opened(files: map<u64, Bytes>, h: u64): map<u64, Bytes> {
    files[h := Contents(files, h)]
  }

  function OpenWal(disk: DiskState): Result<WalState> {
    var current := if disk.index == "" then Some(0) else ParseU64(disk.index);
    if current.None? then Failure(DecodeErr)
    else Success(WalState(disk.(files := Opened(disk.files, current.value)), {current.value}, current.value))
  }

  /** The handles that `split_off` leaves behind, to be deleted with their files. */
  function Expired(open: set<u64>, h: u64): set<u64> {
    set x | x in open && x < h - DELETE_FILE_INTERVAL
  }

  function SetHeight(w: WalState, h: u64): WalState {
    var files, open := Opened(w.disk.files, h), w.open + {h};
    WalState(DiskState(files - Expired(open, h), Decimal(h)), open - Expired(open, h), h)
  }

  /** The handle `save` writes through, opening the next height's file. */
  function Reach(w: WalState, h: u64): WalState {
    if h !in w.open && h == w.current + 1 then
      w.(disk := w.disk.(files := Opened(w.disk.files, h)), open := w.open + {h})
    else w
  }

  /** The number of body bytes written; `current + 1` can overflow. */
  function Save(w: WalState, h: u64, kind: byte, msg: Bytes): (WalState, Result<nat>) {
    if h !in w.open && w.current + 1 == U64_BOUND then (w, Failure(Panicked))
    else if h !in w.open && h > w.current + 1 then (w, Success(0))
    else
      var r := Reach(w, h);
      if msg == [] || h !in r.open then (r, Success(0))
      else
        var content := Contents(r.disk.files, h) + Frame(Record(kind, msg));
        (r.(disk := r.disk.(files := r.disk.files[h := content])), Success(|msg|))
  }

  predicate IsLeast(m: u64, s: set<u64>) { m in s && forall x | x in s :: m <= x }

  lemma {:induction false} LeastExists(s: set<u64>)
    requires s != {}
    ensures exists m :: IsLeast(m, s)
  {
    var x :| x in s;
    if s == {x} {
      assert IsLeast(x, s);
    } else {
      LeastExists(s - {x});
      var n :| IsLeast(n, s - {x});
      var m := if x <= n then x else n;
      forall y | y in s ensures m <= y {
        if y != x { assert y in s - {x}; }
      }
      assert IsLeast(m, s);
    }
  }

  /** The first height in the order in which a `BTreeMap` iterates. */
  function Least(s: set<u64>): (m: u64)
    requires s != {}
    ensures IsLeast(m, s)
  {
    LeastExists(s);
    var m :| m in s && IsLeast(m, s);
    m
  }

  /** Files at or above `current`, read into one buffer that is never cleared:
      each file's byte count is parsed from the start of that buffer. */
  function LoadFiles(files: map<u64, Bytes>, open: set<u64>, current: u64, buf: Bytes): seq<Record>
    decreases |open|
  {
    if open == {} then []
    else
      var h := Least(open);
      var size, all := |Contents(files, h)|, buf + Contents(files, h);
      if h < current then LoadFiles(files, open - {h}, current, buf)
      else if size <= HEADER then []
      else Parse(all[..size]) + LoadFiles(files, open - {h}, current, all)
  }

  function Load(w: WalState): seq<Record> {
    if w.open == {} || w.current == 0 then [] else LoadFiles(w.disk.files, w.open, w.current, [])
  }
}
