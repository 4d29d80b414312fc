/** The log as the program keeps it: handles and current height that change in
    place, over a disk that outlives them. */
module WalLog {
  import opened Prelude
  import opened Digits
  import opened Wal

  class Disk {
    var files: map<u64, Bytes>
    var index: string

    ghost function State(): DiskState reads this { DiskState(files, index) }

    method Open(h: u64)
      modifies `files
      ensures files == Opened(old(files), h)
    {
      if h !in files { files := files[h := []]; }
    }
  }

  class Log {
    const disk: Disk
    var heightFs: set<u64>
    var currentHeight: u64

    ghost function View(): WalState reads this, disk { WalState(disk.State(), heightFs, currentHeight) }

    /** Every open handle has its file on disk. */
    ghost predicate Valid() reads this, disk { heightFs <= disk.files.Keys }

    constructor (disk: Disk, current: u64)
      ensures this.disk == disk && heightFs == {current} && currentHeight == current
    {
      this.disk, heightFs, currentHeight := disk, {current}, current;
    }

    static method New(disk: Disk) returns (r: Result<Log>)
      modifies disk
      ensures r.Failure? <==> OpenWal(old(disk.State())).Failure?
      ensures r.Failure? ==> disk.State() == old(disk.State())
      ensures r.Success? ==> fresh(r.value) && r.value.disk == disk && r.value.Valid()
                             && OpenWal(old(disk.State())) == Success(r.value.View())
    {
      var current: u64 := 0;
      if disk.index != "" {
        var parsed := ParseU64(disk.index);
        if parsed.None? { return Failure(DecodeErr); }
        current := parsed.value;
      }
      disk.Open(current);
      var log := new Log(disk, current);
      return Success(log);
    }

    method SetHeight(height: u64)
      requires Valid()
      modifies this, disk
      ensures Valid() && View() == Wal.SetHeight(old(View()), height)
    {
      hide Decimal;
      currentHeight := height;
      disk.index := Decimal(height);
      disk.Open(height);
      heightFs := heightFs + {height};
      ghost var expired, files := Expired(heightFs, height), disk.files;
      if height > DELETE_FILE_INTERVAL {
        var saved := set h | h in heightFs && h >= height - DELETE_FILE_INTERVAL;
        var dropped := heightFs - saved;
        assert dropped == expired;
        while dropped != {}
          modifies disk
          invariant dropped <= expired && disk.files == files - (expired - dropped)
          invariant disk.index == Decimal(height)
          decreases dropped
        {
          var h :| h in dropped;
          disk.files := disk.files - {h};
          dropped := dropped - {h};
        }
        heightFs := saved;
      } else {
        assert expired == {};
      }
    }

    method Save(height: u64, kind: byte, msg: Bytes) returns (r: Result<nat>)
      requires Valid()
      modifies this, disk
      ensures Valid() && (View(), r) == Wal.Save(old(View()), height, kind, msg)
    {
      if height !in heightFs {
        if currentHeight + 1 == U64_BOUND { return Failure(Panicked); }
        if height > currentHeight + 1 {
          return Success(0);
        } else if height == currentHeight + 1 {
          disk.Open(height);
          heightFs := heightFs + {height};
        }
      }
      if msg == [] { return Success(0); }
      if height in heightFs {
        ghost var files, content := disk.files, disk.files[height];
        disk.files := disk.files[height := disk.files[height] + LittleEndian(|msg| % U32_BOUND, 4)];
        disk.files := disk.files[height := disk.files[height] + [kind]];
        disk.files := disk.files[height := disk.files[height] + msg];
        assert disk.files[height] == content + Frame(Record(kind, msg));
        assert disk.files == files[height := content + Frame(Record(kind, msg))];
        return Success(|msg|);
      }
      return Success(0);
    }

    method Load() returns (out: seq<Record>)
      requires Valid()
      ensures out == Wal.Load(View())
    {
      out := [];
      if heightFs == {} || currentHeight == 0 { return; }
      var buf: Bytes, todo := [], heightFs;
      ghost var files, result := disk.files, Wal.Load(View());
      while todo != {}
        invariant todo <= heightFs
        invariant out + LoadFiles(files, todo, currentHeight, buf) == result
        decreases |todo|
      {
        var height := Least(todo);
        ghost var later := todo - {height};
        todo := todo - {height};
        if height < currentHeight { continue; }
        var size := |disk.files[height]|;
        buf := buf + disk.files[height];
        if size <= HEADER { return; }
        var records := ParseRecords(buf, size);
        ghost var rest := LoadFiles(files, later, currentHeight, buf);
        assert out + (records + rest) == (out + records) + rest;
        out := out + records;
      }
    }

    /** The inner loop of `load`: the records of the first `size` buffered bytes. */
    static method ParseRecords(buf: Bytes, size: nat) returns (out: seq<Record>)
      requires size <= |buf|
      ensures out == Parse(buf[..size])
    {
      hide LittleValue;
      out := [];
      var index := 0;
      assert buf[0..size] == buf[..size];
      while true
        invariant 0 <= index <= size
        invariant out + Parse(buf[index..size]) == Parse(buf[..size])
        decreases size - index
      {
        ParseStep(buf, index, size);
        if index + HEADER > size { break; }
        var len := LittleValue(buf[index..index + 4]);
        var kind := buf[index + 4];
        index := index + HEADER;
        if index + len > size { break; }
        var record := Record(kind, buf[index..index + len]);
        ghost var rest := Parse(buf[index + len..size]);
        assert out + ([record] + rest) == (out + [record]) + rest;
        out := out + [record];
        index := index + len;
      }
    }
  }

  lemma SliceOfSlice(b: Bytes, from: nat, to: nat, i: nat, j: nat)
    requires from <= to <= |b| && i <= j <= to - from
    ensures b[from..to][i..j] == b[from + i..from + j]
  {
    var whole, s, t := b[from..to], b[from..to][i..j], b[from + i..from + j];
    assert |s| == |t| && forall k :: 0 <= k < |t| ==> s[k] == whole[i + k] == b[from + (i + k)] == t[k];
  }

  /** One turn of the parsing loop at `index`. */
  lemma ParseStep(buf: Bytes, index: nat, size: nat)
    requires index <= size <= |buf|
    ensures index + HEADER > size ==> Parse(buf[index..size]) == []
    ensures index + HEADER <= size ==>
              var len, body := LittleValue(buf[index..index + 4]), index + HEADER;
              Parse(buf[index..size]) == if body + len > size then []
                                         else
                                           [Record(buf[index + 4], buf[body..body + len])]
                                           + Parse(buf[body + len..size])
  {
    hide LittleValue;
    if index + HEADER <= size {
      SliceOfSlice(buf, index, size, 0, 4);
      var len := LittleValue(buf[index..index + 4]);
      if index + HEADER + len <= size {
        SliceOfSlice(buf, index, size, HEADER, HEADER + len);
        SliceOfSlice(buf, index, size, HEADER + len, size - index);
      }
    }
  }
}
