/** `ArchiveManifestWriter`: opening a log and appending records to it.

    Every system call is an outcome the caller supplies. `open` and the parts of `append` (under the
    lock, then outside it the sync, the close and what is made of their outcomes) are functions of
    the writer's state and those outcomes; the class carries them out in place and is proved to
    compute exactly them. */
module ManifestWriter {
  import opened Text
  import opened ManifestRecord
  import opened ManifestLog

  datatype Code = SUCCESS | ERR_UNKNOWN | ERR_INVALID_ARG

  /* ---- system-call outcomes ---- */

  datatype WriteResult = Interrupted | WriteError | Wrote(n: nat)

  /** A failed sync may lose dirty pages: all bytes past `kept`, never a synced one. */
  datatype SyncResult = Synced | SyncFailed(kept: nat)

  /** A failed close may lose what was still buffered. */
  datatype CloseResult = Closed | CloseFailed(kept: nat)

  /** Opening the log to append; a missing directory is made again once. */
  datatype FdResult = Opened | Missing(directoryMade: bool, reopened: bool) | Refused

  predicate HaveFd(fd: FdResult) { fd.Opened? || (fd.Missing? && fd.directoryMade && fd.reopened) }

  datatype OpenEnv = OpenEnv(
    directoryOk: bool, fdOk: bool, statOk: bool, now: uint64, writes: seq<WriteResult>,
    sync: SyncResult, close: CloseResult, probeOk: bool, directoriesSynced: bool)

  datatype AppendEnv = AppendEnv(fd: FdResult, statOk: bool, now: uint64, writes: seq<WriteResult>)

  /** How many of `len` bytes `writeAll` gets out before it is done or gives up. */
  function Written(results: seq<WriteResult>, len: nat): (n: nat)
    ensures n <= len
    decreases results
  {
    if len == 0 || results == [] then 0
    else
      match results[0]
      case Interrupted => Written(results[1..], len)
      case WriteError => 0
      case Wrote(n) => var m := if n < len then n else len; m + Written(results[1..], len - m)
  }

  /* ---- the writer's state and its operations ---- */

  datatype State = State(log: string, synced: nat, failed: bool, needsNewline: bool)

  predicate Sane(s: State) { s.synced <= |s.log| }

  function Clamp(s: State, kept: nat): nat
    requires Sane(s)
  {
    if kept < s.synced then s.synced else if kept > |s.log| then |s.log| else kept
  }

  /** The log loses everything past `kept`, but no synced byte. */
  function Drop(s: State, kept: nat): (t: State)
    requires Sane(s)
    ensures Sane(t)
  {
    s.(log := s.log[..Clamp(s, kept)])
  }

  function Latch(s: State): State { s.(failed := true) }

  function HeaderRecord(writer: string, now: uint64): Record { DEFAULT.(op := OPEN, writer := writer, start := now) }

  function HeaderLine(writer: string, now: uint64): string { ToManifestLine(HeaderRecord(writer, now)) + "\n" }

  function OpenText(s: State, writer: string, e: OpenEnv): string
  {
    if s.log == "" then HeaderLine(writer, e.now) else ""
  }

  /** A sync's effect on the file. */
  function SyncFile(s: State, sync: SyncResult): (t: State)
    requires Sane(s)
    ensures Sane(t)
  {
    if sync.Synced? then s.(synced := |s.log|) else Drop(s, sync.kept)
  }

  /** A close's effect on the file. */
  function CloseFile(s: State, close: CloseResult): (t: State)
    requires Sane(s)
    ensures Sane(t)
  {
    if close.Closed? then s else Drop(s, close.kept)
  }

  function OpenStep(s: State, writer: string, e: OpenEnv): (r: (State, Code))
    requires Sane(s)
    ensures Sane(r.0)
  {
    if !e.directoryOk || !e.fdOk then (s, ERR_UNKNOWN)
    else if !e.statOk then (CloseFile(s, e.close), ERR_UNKNOWN)
    else
      var text := OpenText(s, writer, e);
      var n := Written(e.writes, |text|);
      var t := s.(log := s.log + text[..n]);
      var u := CloseFile(if n == |text| then SyncFile(t, e.sync) else t, e.close);
      if n == |text| && e.sync.SyncFailed? then (Latch(u), ERR_UNKNOWN)
      else if n < |text| || e.close.CloseFailed? then (u, ERR_UNKNOWN)
      else
        var w := u.(needsNewline := e.probeOk && !EndsLine(u.log));
        if e.directoriesSynced then (w, SUCCESS) else (Latch(w), ERR_UNKNOWN)
  }

  /** An append between its write and its return. */
  datatype Flight = Flight(written: bool, created: bool)

  datatype Begun = Begun(state: State, flight: Option<Flight>, code: Code)

  function AppendText(s: State, writer: string, r: Record, e: AppendEnv): string
  {
    (if e.statOk && s.log == "" then HeaderLine(writer, e.now) else if s.needsNewline then "\n" else "")
    + (ToManifestLine(r) + "\n")
  }

  /** The part of `append` under the lock. */
  function BeginStep(s: State, writer: string, r: Record, e: AppendEnv): (b: Begun)
    requires Sane(s)
    ensures Sane(b.state)
  {
    if !AppendAccepts(r) then Begun(s, None, ERR_INVALID_ARG)
    else if s.failed || !HaveFd(e.fd) then Begun(s, None, ERR_UNKNOWN)
    else
      var text := AppendText(s, writer, r, e);
      var n := Written(e.writes, |text|);
      Begun(s.(log := s.log + text[..n], needsNewline := n < |text|),
            Some(Flight(n == |text|, e.statOk && s.log == "")), SUCCESS)
  }

  /** What an append whose sync, if it had one, and close are over leaves behind and answers. Until
      then other appends see neither `theFailed` nor the request for a newline. */
  function FinishStep(s: State, f: Flight, syncOk: bool, closeOk: bool, directoriesSynced: bool): (State, Code)
  {
    if !syncOk then (Latch(s), ERR_UNKNOWN)
    else if !f.written || !closeOk then (s.(needsNewline := s.needsNewline || !closeOk), ERR_UNKNOWN)
    else if f.created && !directoriesSynced then (Latch(s), ERR_UNKNOWN)
    else (s, SUCCESS)
  }

  /** The whole of one append with no other append in between. */
  function AppendStep(s: State, writer: string, r: Record, e: AppendEnv, sync: SyncResult, close: CloseResult,
                      directoriesSynced: bool): (State, Code)
    requires Sane(s)
  {
    var b := BeginStep(s, writer, r, e);
    if b.flight.None? then (b.state, b.code)
    else
      var f := b.flight.value;
      var t := if f.written then SyncFile(b.state, sync) else b.state;
      FinishStep(CloseFile(t, close), f, f.written ==> sync.Synced?, close.Closed?, directoriesSynced)
  }

  /* ---- the class ---- */

  /** The log's file: its bytes, and how many of them are surely on disk. */
  class LogFile {
    var bytes: string
    var synced: nat

    constructor ()
      ensures bytes == "" && synced == 0
    {
      bytes, synced := "", 0;
    }

    method WriteAll(buffer: string, results: seq<WriteResult>) returns (ok: bool)
      modifies this`bytes
      ensures bytes == old(bytes) + buffer[..Written(results, |buffer|)]
      ensures ok <==> Written(results, |buffer|) == |buffer|
    {
      var written: nat, next: nat := 0, 0;
      while written < |buffer| && next < |results|
        invariant written <= |buffer| && next <= |results|
        invariant bytes == old(bytes) + buffer[..written]
        invariant Written(results, |buffer|) == written + Written(results[next..], |buffer| - written)
        decreases |results| - next
      {
        assert results[next..][1..] == results[next + 1..];
        match results[next] {
          case Interrupted =>
          case WriteError =>
            return false;
          case Wrote(n) =>
            var m := if n < |buffer| - written then n else |buffer| - written;
            bytes := bytes + buffer[written..written + m];
            written := written + m;
        }
        next := next + 1;
      }
      ok := written == |buffer|;
    }

    /** `archiveFsync`, and what a failure may cost. */
    method Sync(result: SyncResult) returns (ok: bool)
      requires synced <= |bytes|
      modifies this
      ensures ok <==> result.Synced?
      ensures var s := State(old(bytes), old(synced), false, false);
              bytes == SyncFile(s, result).log && synced == SyncFile(s, result).synced
    {
      match result {
        case Synced =>
          synced := |bytes|;
          ok := true;
        case SyncFailed(kept) =>
          Lose(kept);
          ok := false;
      }
    }

    method Close(result: CloseResult) returns (ok: bool)
      requires synced <= |bytes|
      modifies this`bytes
      ensures ok <==> result.Closed?
      ensures bytes == CloseFile(State(old(bytes), synced, false, false), result).log
    {
      ok := result.Closed?;
      if !ok { Lose(result.kept); }
    }

    method Lose(kept: nat)
      requires synced <= |bytes|
      modifies this`bytes
      ensures bytes == Drop(State(old(bytes), synced, false, false), kept).log
    {
      var k := if kept < synced then synced else if kept > |bytes| then |bytes| else kept;
      bytes := bytes[..k];
    }
  }

  class Writer {
    const id: string
    const file: LogFile
    var theFailed: bool
    var theLogNeedsNewline: bool

    constructor (id: string, file: LogFile)
      ensures this.id == id && this.file == file && !theFailed && !theLogNeedsNewline
    {
      this.id, this.file := id, file;
      theFailed, theLogNeedsNewline := false, false;
    }

    ghost function Now(): State
      reads this, file
    {
      State(file.bytes, file.synced, theFailed, theLogNeedsNewline)
    }

    method Open(e: OpenEnv) returns (code: Code)
      requires Sane(Now())
      modifies this, file
      ensures (Now(), code) == OpenStep(old(Now()), id, e)
    {
      hide ToManifestLine, EndsLine, Written;
      if !e.directoryOk || !e.fdOk {
        return ERR_UNKNOWN;
      }
      var ok := e.statOk;
      if ok && file.bytes == "" {
        ok := file.WriteAll(HeaderLine(id, e.now), e.writes);
      } else {
        assert file.bytes + "" == file.bytes;
      }
      var synced := true;
      if ok {
        synced := file.Sync(e.sync);
      }
      var closed := file.Close(e.close);
      if !synced {
        theFailed := true;
        return ERR_UNKNOWN;
      }
      if !ok || !closed {
        return ERR_UNKNOWN;
      }
      theLogNeedsNewline := e.probeOk && !EndsLine(file.bytes);
      if !e.directoriesSynced {
        theFailed := true;
        return ERR_UNKNOWN;
      }
      code := SUCCESS;
    }

    method AppendLocked(r: Record, e: AppendEnv) returns (flight: Option<Flight>, code: Code)
      requires Sane(Now())
      modifies this, file
      ensures Begun(Now(), flight, code) == BeginStep(old(Now()), id, r, e)
    {
      if !AppendAccepts(r) {
        return None, ERR_INVALID_ARG;
      }
      if theFailed || !HaveFd(e.fd) {
        return None, ERR_UNKNOWN;
      }
      var line := ToManifestLine(r) + "\n";
      var created := e.statOk && file.bytes == "";
      if created {
        line := HeaderLine(id, e.now) + line;
      } else if theLogNeedsNewline {
        line := "\n" + line;
      } else {
        line := "" + line;
      }
      var written := file.WriteAll(line, e.writes);
      theLogNeedsNewline := !written;
      return Some(Flight(written, created)), SUCCESS;
    }

    method AppendSync(sync: SyncResult) returns (ok: bool)
      requires Sane(Now())
      modifies file
      ensures ok <==> sync.Synced?
      ensures Now() == SyncFile(old(Now()), sync)
    {
      ok := file.Sync(sync);
    }

    method AppendClose(close: CloseResult) returns (ok: bool)
      requires Sane(Now())
      modifies file
      ensures ok <==> close.Closed?
      ensures Now() == CloseFile(old(Now()), close)
    {
      ok := file.Close(close);
    }

    method AppendFinish(f: Flight, syncOk: bool, closeOk: bool, directoriesSynced: bool) returns (code: Code)
      modifies this
      ensures (Now(), code) == FinishStep(old(Now()), f, syncOk, closeOk, directoriesSynced)
    {
      if !syncOk {
        theFailed := true;
        return ERR_UNKNOWN;
      }
      if !f.written || !closeOk {
        if !closeOk { theLogNeedsNewline := true; }
        return ERR_UNKNOWN;
      }
      if f.created && !directoriesSynced {
        theFailed := true;
        return ERR_UNKNOWN;
      }
      code := SUCCESS;
    }

    method Append(r: Record, e: AppendEnv, sync: SyncResult, close: CloseResult, directoriesSynced: bool)
      returns (code: Code)
      requires Sane(Now())
      modifies this, file
      ensures (Now(), code) == AppendStep(old(Now()), id, r, e, sync, close, directoriesSynced)
    {
      var flight, begun := AppendLocked(r, e);
      if flight.None? {
        return begun;
      }
      var syncOk := true;
      if flight.value.written { syncOk := AppendSync(sync); }
      var closeOk := AppendClose(close);
      code := AppendFinish(flight.value, syncOk, closeOk, directoriesSynced);
    }
  }
}
