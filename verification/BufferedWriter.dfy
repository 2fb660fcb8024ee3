/** middleware/sd_fat32.c, lines 245-325: the file handle with its 2560-byte buffer.  The FAT32
    library is represented by its appending contract: write_file_fat32 returns 0 exactly when the
    whole buffer was appended, and appends nothing otherwise. */
module BufferedWriter {
  import opened Runs
  import opened WriterRuns

  datatype Request = Request(bytes: seq<bv8>, granted: bool)

  /** Since then the library was given full buffers only, and granted all of them, but for the last
      when the call failed. */
  ghost predicate FullBuffers(before: seq<Request>, now: seq<Request>, ok: bool) {
    && before <= now && (ok || |before| < |now|)
    && (forall i :: |before| <= i < |now| ==> |now[i].bytes| == 2560)
    && (forall i :: |before| <= i < |now| ==> (now[i].granted <==> ok || i < |now| - 1))
  }

  lemma FullBuffersFollow(a: seq<Request>, b: seq<Request>, c: seq<Request>, ok: bool)
    requires FullBuffers(a, b, true) && FullBuffers(b, c, ok)
    ensures FullBuffers(a, c, ok)
  {
  }

  class SdFat32File {
    var file: seq<bv8>
    const buffer: array<bv8>
    var index: nat
    ghost var states: seq<Writer>
    ghost var log: seq<WriterEvent>
    ghost var asked: seq<Request>   // the calls of write_file_fat32

    ghost function State(): Writer
      reads this, buffer
      requires index <= buffer.Length
    {
      Writer(file, buffer[..index])
    }

    /** The log of calls explains the state. */
    ghost predicate Valid()
      reads this, buffer
    {
      && buffer.Length == SD_FAT32_BUFFER_SIZE && index <= SD_FAT32_BUFFER_SIZE
      && History(Happens, states, log) && states[|log|] == State()
    }

    /** sd_fat32_open on a file that holds `contents` */
    constructor (contents: seq<bv8>)
      ensures Valid() && fresh(buffer)
      ensures file == contents && index == 0
      ensures log == [] && states == [Writer(contents, [])] && asked == []
    {
      buffer := new bv8[SD_FAT32_BUFFER_SIZE];
      file, index := contents, 0;
      states, log, asked := [Writer(contents, [])], [], [];
    }

    /** write_file_fat32 on the first n bytes of the buffer */
    method WriteFileFat32(n: nat) returns (status: int)
      requires n <= buffer.Length
      modifies `file, `asked
      ensures asked == old(asked) + [Request(buffer[..n], status == 0)]
      ensures file == if status == 0 then old(file) + buffer[..n] else old(file)
    {
      status := *;
      if status == 0 {
        file := file + buffer[..n];
      }
      asked := asked + [Request(buffer[..n], status == 0)];
    }

    /** One round of sd_fat32_write: fill the buffer, and write it out when it is full. */
    method Round(data: seq<bv8>, at: nat) returns (status: int, copied: nat)
      requires buffer.Length == SD_FAT32_BUFFER_SIZE && index <= SD_FAT32_BUFFER_SIZE && at < |data|
      modifies `file, `index, `asked, buffer
      ensures index <= SD_FAT32_BUFFER_SIZE && at + copied <= |data|
      ensures copied > 0 || old(index) == SD_FAT32_BUFFER_SIZE
      ensures old(index) + copied == SD_FAT32_BUFFER_SIZE || at + copied == |data|
      ensures if old(index) + copied < SD_FAT32_BUFFER_SIZE then status == 0 && asked == old(asked)
              else asked == old(asked) + [Request(old(buffer[..index]) + data[at..at + copied], status == 0)]
      ensures FullBuffers(old(asked), asked, status == 0)
      ensures State().Content() == old(State().Content()) + data[at..at + copied]
      ensures file == old(file) || |file| == |old(file)| + SD_FAT32_BUFFER_SIZE
      ensures old(file) <= file
      ensures status == 0 ==> index < SD_FAT32_BUFFER_SIZE
      ensures status != 0 ==> index == SD_FAT32_BUFFER_SIZE
    {
      var remaining := |data| - at;
      var space := SD_FAT32_BUFFER_SIZE - index;
      copied := if remaining < space then remaining else space;
      forall i | 0 <= i < copied {
        buffer[index + i] := data[at + i];
      }
      index := index + copied;
      assert buffer[..index] == old(buffer[..index]) + data[at..at + copied];
      assert State().Content() == old(State().Content()) + data[at..at + copied];
      status := 0;
      if index == SD_FAT32_BUFFER_SIZE {
        ghost var content := State().Content();
        status := WriteFileFat32(SD_FAT32_BUFFER_SIZE);
        if status != 0 {
          return;
        }
        index := 0;
        assert State().Content() == content;
      }
    }

    ghost method Record(before: Writer, e: WriterEvent)
      requires buffer.Length == SD_FAT32_BUFFER_SIZE && index <= SD_FAT32_BUFFER_SIZE
      requires History(Happens, states, log) && states[|log|] == before && Happens(before, e, State())
      modifies `states, `log
      ensures Valid() && log == old(log) + [e] && states == old(states) + [State()]
    {
      HistoryGrows(Happens, states, log, e, State());
      states, log := states + [State()], log + [e];
    }

    /** Round, behind the first `at` bytes of the data. */
    method NextRound(data: seq<bv8>, at: nat, ghost content: seq<bv8>) returns (status: int, copied: nat)
      requires buffer.Length == SD_FAT32_BUFFER_SIZE && index <= SD_FAT32_BUFFER_SIZE && at < |data|
      requires State().Content() == content + data[..at]
      modifies `file, `index, `asked, buffer
      ensures index <= SD_FAT32_BUFFER_SIZE && at + copied <= |data|
      ensures copied > 0 || old(index) == SD_FAT32_BUFFER_SIZE
      ensures State().Content() == content + data[..at + copied]
      ensures file == old(file) || |file| == |old(file)| + SD_FAT32_BUFFER_SIZE
      ensures old(file) <= file
      ensures if status == 0 then index < SD_FAT32_BUFFER_SIZE else index == SD_FAT32_BUFFER_SIZE
      ensures FullBuffers(old(asked), asked, status == 0)
    {
      status, copied := Round(data, at);
      assert data[..at + copied] == data[..at] + data[at..at + copied];
      assert content + data[..at + copied] == content + data[..at] + data[at..at + copied];
    }

    /** sd_fat32_write.  It fails only when the library refuses a full buffer.  It ends from every state,
        including one an earlier failure left with a full buffer, where a round copies nothing.  A failed write
        has accepted exactly a prefix. */
    method Write(data: seq<bv8>) returns (status: int, ghost accepted: nat)
      requires Valid()
      modifies this, buffer
      ensures Valid()
      ensures accepted <= |data| && (status == 0 ==> accepted == |data|)
      ensures State().Content() == old(State().Content()) + data[..accepted]
      ensures log == old(log) + [Wrote(data, accepted, status == 0)] && states == old(states) + [State()]
      ensures status != 0 ==> index == SD_FAT32_BUFFER_SIZE
      ensures status == 0 && data != [] ==> index < SD_FAT32_BUFFER_SIZE
      ensures FullBuffers(old(asked), asked, status == 0)
    {
      ghost var before := State();
      var at := 0;
      status, accepted := 0, 0;
      while at < |data|
        invariant at == accepted <= |data|
        invariant index <= SD_FAT32_BUFFER_SIZE
        invariant states == old(states) && log == old(log)
        invariant State().Content() == before.Content() + data[..at]
        invariant before.file <= file && (|file| - |before.file|) % SD_FAT32_BUFFER_SIZE == 0
        invariant at > 0 ==> index < SD_FAT32_BUFFER_SIZE
        invariant status == 0 && FullBuffers(old(asked), asked, true)
        decreases |data| - at, index == SD_FAT32_BUFFER_SIZE
      {
        var copied;
        ghost var given := asked;
        status, copied := NextRound(data, at, before.Content());
        FullBuffersFollow(old(asked), given, asked, status == 0);
        at := at + copied;
        accepted := at;
        if status != 0 {
          break;
        }
      }
      assert data[..|data|] == data;
      Record(before, Wrote(data, accepted, status == 0));
    }

    /** sd_fat32_flush */
    method Flush() returns (status: int)
      requires Valid()
      modifies this
      ensures Valid()
      ensures log == old(log) + [Flushed(status == 0)] && states == old(states) + [State()]
      ensures status == 0 ==> file == old(State().Content()) && index == 0
      ensures status != 0 ==> file == old(file) && index == old(index) && index > 0
      ensures asked == old(asked) + if old(index) > 0 then [Request(old(buffer[..index]), status == 0)] else []
    {
      ghost var before := State();
      status := 0;
      if index > 0 {
        status := WriteFileFat32(index);
        if status == 0 {
          index := 0;
        }
      } else {
        assert before.Content() == file;
      }
      Record(before, Flushed(status == 0));
    }

    /** sd_fat32_close: the status of the flush is dropped, so the bytes in the buffer are saved exactly
        when that flush succeeded, whatever close reports; an empty buffer is always safe. */
    method Close() returns (status: int, ghost flushed: bool)
      requires Valid()
      modifies this
      ensures Valid()
      ensures log == old(log) + [Flushed(flushed)] && states == old(states) + [State()]
      ensures old(index) == 0 ==> flushed
      ensures asked == old(asked) + if old(index) > 0 then [Request(old(buffer[..index]), flushed)] else []
      ensures !flushed ==> file == old(file) && index == old(index)
      ensures file == old(State().Content()) <==> flushed
    {
      var s := Flush();
      flushed := s == 0;
      status := *;
      assert !flushed ==> |file| < |old(State().Content())|;
    }
  }
}
