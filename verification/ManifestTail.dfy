/** `ArchiveManifestTail`: following a log that grows, in pieces of bounded size, and noticing that
    another log has taken its name. */
module ManifestTail {
  import opened Text
  import opened ManifestRecord
  import opened ManifestLog

  const HEAD_BYTES: nat := 64 * 1024

  datatype Code = SUCCESS | ERR_UNKNOWN

  /** What opening the log's path finds. */
  datatype Found = NoLog | CannotOpen | CannotStat | Log(inode: nat, bytes: string)

  /** One `pread`; `Got(0)` is an early end of file. */
  datatype PRead = Interrupted | ReadError | Got(n: nat)

  datatype Tail = Tail(offset: nat, inode: nat, head: string)

  const NEW_TAIL := Tail(0, 0, "")

  function Min(a: nat, b: nat): nat { if a < b then a else b }
  function Max(a: nat, b: nat): nat { if a < b then b else a }

  /** The part of a log's first line that identifies it. */
  function HeadOf(bytes: string): string { bytes[..Min(Min(FirstNewline(bytes) + 1, HEAD_BYTES), |bytes|)] }

  function LastNewline(s: string): (k: Option<nat>)
    ensures k.None? ==> '\n' !in s
    ensures k.Some? ==> k.value < |s| && s[k.value] == '\n' && '\n' !in s[k.value + 1..]
  {
    if s == "" then None
    else if s[|s| - 1] == '\n' then Some(|s| - 1)
    else
      var k := LastNewline(s[..|s| - 1]);
      assert k.Some? ==> s[k.value + 1..] == s[..|s| - 1][k.value + 1..] + [s[|s| - 1]];
      assert s == s[..|s| - 1] + [s[|s| - 1]];
      k
  }

  /* ---- the contract of one call ---- */

  /** `headRead`: the pread of the remembered head got all its bytes. */
  predicate StartsAsBefore(t: Tail, bytes: string, headRead: bool)
  {
    t.offset == 0 || t.head == "" || (headRead && t.head <= bytes)
  }

  predicate Replaced(t: Tail, log: Found, headRead: bool)
    requires log.Log?
  {
    log.inode != t.inode || |log.bytes| < t.offset || !StartsAsBefore(t, log.bytes, headRead)
  }

  /** The tail once the identity check is done. */
  function Checked(t: Tail, log: Found, headRead: bool): (c: Tail)
    requires log.Log?
    ensures c.offset <= |log.bytes|
  {
    if Replaced(t, log, headRead) then Tail(0, log.inode, "") else t
  }

  /** How far a call has to look: `maxBytes`, or to the end of the log. */
  function Reach(start: nat, end: nat, maxBytes: nat, size: nat): nat
  {
    Max(end, Min(start + Max(maxBytes, 1), size))
  }

  /** A successful read of `bytes` from c: whole lines only, at least one when there is one, every one
      that ends within `maxBytes`, and no more than that unless the first line is longer. */
  predicate ReadFrom(c: Tail, bytes: string, maxBytes: nat, preads: seq<PRead>, t': Tail, records: seq<Record>)
    requires c.offset <= |bytes|
  {
    var start, end := c.offset, t'.offset;
    start <= end <= |bytes| && EndsLine(bytes[start..end]) &&
    records == Records(bytes[start..end]) &&
    (end == start && Got(0) !in preads ==> '\n' !in bytes[start..]) &&
    (Got(0) !in preads ==> '\n' !in bytes[end..Reach(start, end, maxBytes, |bytes|)]) &&
    (end - start > Max(maxBytes, 1) ==> '\n' !in bytes[start..start + Max(maxBytes, 1)]) &&
    t'.inode == c.inode &&
    t'.head == if start == 0 && end > 0 then HeadOf(bytes) else c.head
  }

  predicate ReadNewSpec(t: Tail, log: Found, headRead: bool, maxBytes: nat, preads: seq<PRead>,
                        t': Tail, code: Code, records: seq<Record>)
  {
    match log
    case NoLog => t' == t && code == SUCCESS && records == []
    case CannotOpen => t' == t && code == ERR_UNKNOWN && records == []
    case CannotStat => t' == t && code == ERR_UNKNOWN && records == []
    case Log(_, bytes) =>
      var c := Checked(t, log, headRead);
      if code == ERR_UNKNOWN then t' == c && records == [] && ReadError in preads
      else ReadFrom(c, bytes, maxBytes, preads, t', records)
  }

  /* ---- the class ---- */

  /** `pread`s until `buffer` holds `want` bytes, the file ends early or a read fails. */
  method Fill(bytes: string, start: nat, buffer: string, want: nat, preads: seq<PRead>, next: nat)
    returns (ok: bool, filled: string, next': nat)
    requires start + want <= |bytes| && |buffer| <= want && buffer == bytes[start..start + |buffer|]
    requires next <= |preads|
    ensures next <= next' <= |preads|
    ensures ok ==> |buffer| <= |filled| <= want && filled == bytes[start..start + |filled|]
    ensures ok && |filled| < want ==> Got(0) in preads
    ensures !ok ==> ReadError in preads
  {
    filled, next' := buffer, next;
    while |filled| < want
      invariant |buffer| <= |filled| <= want && filled == bytes[start..start + |filled|]
      invariant next <= next' <= |preads|
      decreases |preads| - next', want - |filled|
    {
      var left := want - |filled|;
      var n := left;
      if next' < |preads| {
        var result := preads[next'];
        next' := next' + 1;
        if result.Interrupted? { continue; }
        if result.ReadError? { return false, filled, next'; }
        if result.n == 0 { break; }
        n := Min(result.n, left);
      }
      filled := filled + bytes[start + |filled|..start + |filled| + n];
    }
    ok := true;
  }

  /** Up to maxBytes, doubled until a newline is in the buffer or nothing is left. */
  method ReadWindow(bytes: string, start: nat, maxBytes: nat, preads: seq<PRead>) returns (ok: bool, buffer: string)
    requires start < |bytes|
    ensures !ok ==> ReadError in preads
    ensures ok ==> start + |buffer| <= |bytes| && buffer == bytes[start..start + |buffer|]
    ensures ok && '\n' !in buffer && Got(0) !in preads ==> start + |buffer| == |bytes|
    ensures ok && |buffer| > Max(maxBytes, 1) ==> '\n' !in bytes[start..start + Max(maxBytes, 1)]
    ensures ok && Got(0) !in preads ==> |buffer| >= Min(|bytes| - start, Max(maxBytes, 1))
  {
    var available := |bytes| - start;
    var first := Max(maxBytes, 1);
    var want := Min(available, first);
    var next := 0;
    buffer := "";
    while true
      invariant |buffer| < want <= available && next <= |preads|
      invariant buffer == bytes[start..start + |buffer|]
      invariant Min(available, first) <= want
      invariant want > first ==> first <= |buffer| && '\n' !in buffer
      decreases available - |buffer|
    {
      ok, buffer, next := Fill(bytes, start, buffer, want, preads, next);
      if !ok { return; }
      var atEnd := |buffer| < want || |buffer| >= available;
      assert want > first ==> bytes[start..start + first] <= bytes[start..start + |buffer|] || |buffer| < first;
      if LastNewline(buffer).Some? || atEnd {
        return;
      }
      want := Min(available, 2 * |buffer|);
    }
  }

  /** The records on the lines of a buffer that ends with a newline. */
  method RecordsIn(buffer: string, lastNewline: nat) returns (records: seq<Record>)
    requires lastNewline < |buffer| && buffer[lastNewline] == '\n'
    ensures records == Records(buffer[..lastNewline + 1])
  {
    hide Records, ParseManifestLine;
    records := [];
    var begin := 0;
    assert buffer[..0] == "";
    NoRecords();
    while begin <= lastNewline
      invariant 0 <= begin <= lastNewline + 1
      invariant EndsLine(buffer[..begin]) && records == Records(buffer[..begin])
    {
      var k := FirstNewline(buffer[begin..]);
      assert buffer[begin..][lastNewline - begin] == '\n';
      assert k <= lastNewline - begin;
      var end := begin + k;
      var line := buffer[begin..end];
      assert line == buffer[begin..][..k];
      OneLine(line);
      assert buffer[..end + 1] == buffer[..begin] + (line + "\n");
      RecordsConcat(buffer[..begin], line + "\n");
      match ParseManifestLine(line) {
        case Some(record) =>
          if record.op != OPEN { records := records + [record]; }
        case None =>
      }
      begin := end + 1;
    }
  }

  class LogTail {
    var theOffset: nat
    var theInode: nat
    var theHead: string

    constructor ()
      ensures Now() == NEW_TAIL
    {
      theOffset, theInode, theHead := 0, 0, "";
    }

    ghost function Now(): Tail
      reads this
    {
      Tail(theOffset, theInode, theHead)
    }

    /** The identity check: another file under this name is read from its start. */
    method CheckIdentity(log: Found, headRead: bool)
      requires log.Log?
      modifies this
      ensures Now() == Checked(old(Now()), log, headRead)
    {
      var startsAsBefore := theOffset == 0 || theHead == "" || (headRead && theHead <= log.bytes);
      if log.inode != theInode || |log.bytes| < theOffset || !startsAsBefore {
        theOffset, theInode, theHead := 0, log.inode, "";
      }
    }

    /** Reads a window from the offset and takes the whole lines in it. */
    method Consume(bytes: string, maxBytes: nat, preads: seq<PRead>) returns (code: Code, records: seq<Record>)
      requires theOffset <= |bytes|
      modifies this
      ensures if code == ERR_UNKNOWN then Now() == old(Now()) && records == [] && ReadError in preads
              else ReadFrom(old(Now()), bytes, maxBytes, preads, Now(), records)
    {
      hide Records, FirstNewline, EndsLine, ReadFrom, LastNewline, HeadOf, Max, Min;
      if |bytes| <= theOffset {
        NothingRead(Now(), bytes, maxBytes, preads);
        return SUCCESS, [];
      }
      var ok, buffer := ReadWindow(bytes, theOffset, maxBytes, preads);
      if !ok { return ERR_UNKNOWN, []; }
      var last := LastNewline(buffer);
      if last.None? {
        assert Got(0) !in preads ==> buffer == bytes[theOffset..];
        NothingRead(Now(), bytes, maxBytes, preads);
        return SUCCESS, [];
      }
      records := RecordsIn(buffer, last.value);
      if theOffset == 0 {
        theHead := HeadOf(buffer);
      }
      theOffset := theOffset + last.value + 1;
      code := SUCCESS;
      SomethingRead(old(Now()), bytes, maxBytes, preads, buffer, last.value, Now(), records);
    }

    method ReadNew(log: Found, headRead: bool, maxBytes: nat, preads: seq<PRead>)
      returns (code: Code, records: seq<Record>)
      modifies this
      ensures ReadNewSpec(old(Now()), log, headRead, maxBytes, preads, Now(), code, records)
    {
      hide ReadFrom;
      if log.NoLog? { return SUCCESS, []; }
      if log.CannotOpen? || log.CannotStat? { return ERR_UNKNOWN, []; }
      CheckIdentity(log, headRead);
      code, records := Consume(log.bytes, maxBytes, preads);
    }
  }

  lemma NothingRead(c: Tail, bytes: string, maxBytes: nat, preads: seq<PRead>)
    requires c.offset <= |bytes|
    requires Got(0) !in preads ==> '\n' !in bytes[c.offset..]
    ensures ReadFrom(c, bytes, maxBytes, preads, c, [])
  {
    hide ParseManifestLine;
    LinesNone("");
    assert bytes[c.offset..c.offset] == "";
  }

  lemma SameSlice(bytes: string, start: nat, buffer: string, a: nat, b: nat)
    requires start + |buffer| <= |bytes| && buffer == bytes[start..start + |buffer|] && a <= b <= |buffer|
    ensures bytes[start + a..start + b] == buffer[a..b]
    ensures '\n' !in buffer[a..] ==> '\n' !in buffer[a..b]
  {
    assert buffer[a..b] == buffer[a..][..b - a];
    forall k | 0 <= k < b - a ensures buffer[a..b][k] == buffer[a..][k] {}
  }

  lemma SomethingRead(c: Tail, bytes: string, maxBytes: nat, preads: seq<PRead>, buffer: string, last: nat,
                      t': Tail, records: seq<Record>)
    requires c.offset + |buffer| <= |bytes| && buffer == bytes[c.offset..c.offset + |buffer|]
    requires |buffer| > Max(maxBytes, 1) ==> '\n' !in bytes[c.offset..c.offset + Max(maxBytes, 1)]
    requires Got(0) !in preads ==> |buffer| >= Min(|bytes| - c.offset, Max(maxBytes, 1))
    requires last < |buffer| && buffer[last] == '\n' && '\n' !in buffer[last + 1..]
    requires records == Records(buffer[..last + 1])
    requires t'.offset == c.offset + last + 1 && t'.inode == c.inode
    requires t'.head == if c.offset == 0 then HeadOf(buffer) else c.head
    ensures ReadFrom(c, bytes, maxBytes, preads, t', records)
  {
    hide Records, HeadOf, Reach;
    assert bytes[c.offset..t'.offset] == buffer[..last + 1];
    if Got(0) !in preads { NothingInReach(c.offset, bytes, maxBytes, buffer, last); }
    if c.offset == 0 { SameHead(buffer, last, bytes); }
  }

  lemma NothingInReach(start: nat, bytes: string, maxBytes: nat, buffer: string, last: nat)
    requires start + |buffer| <= |bytes| && buffer == bytes[start..start + |buffer|]
    requires |buffer| >= Min(|bytes| - start, Max(maxBytes, 1)) && last < |buffer| && '\n' !in buffer[last + 1..]
    ensures var end := start + last + 1; '\n' !in bytes[end..Reach(start, end, maxBytes, |bytes|)]
  {
    var reach := Reach(start, start + last + 1, maxBytes, |bytes|);
    SameSlice(bytes, start, buffer, last + 1, reach - start);
  }

  /** The head is settled by the first line alone. */
  lemma SameHead(a: string, k: nat, b: string)
    requires a <= b && k < |a| && a[k] == '\n'
    ensures HeadOf(a) == HeadOf(b)
  {
    var i, j := FirstNewline(a), FirstNewline(b);
    assert a[..|a|] == a && b[..|b|] == b && a[k] in a;
    assert i < |a|;
    assert b[i] == '\n';
    assert a[..Min(i + 1, HEAD_BYTES)] == b[..Min(i + 1, HEAD_BYTES)];
    assert forall x | 0 <= x < i :: b[x] == a[..i][x];
    assert forall x | 0 <= x < j :: b[x] == b[..j][x];
    assert i == j;
  }

  /* ---- runs ---- */

  /** The tail stands at a line end of this very log. */
  predicate Follows(t: Tail, inode: nat, bytes: string)
  {
    t.offset <= |bytes| && EndsLine(bytes[..t.offset]) &&
    (t.offset > 0 ==> t.inode == inode && t.head == HeadOf(bytes)) &&
    (t.offset == 0 ==> t.head == "")
  }

  lemma HeadIsPrefix(bytes: string)
    ensures HeadOf(bytes) <= bytes
  {
  }

  /** One call takes the tail on by exactly the records of the bytes it consumed. */
  lemma ReadExtends(t: Tail, log: Found, maxBytes: nat, preads: seq<PRead>, t': Tail, code: Code, records: seq<Record>)
    requires log.Log? && Follows(t, log.inode, log.bytes)
    requires ReadNewSpec(t, log, true, maxBytes, preads, t', code, records)
    ensures Follows(t', log.inode, log.bytes) && t.offset <= t'.offset
    ensures Records(log.bytes[..t'.offset]) == Records(log.bytes[..t.offset]) + records
    ensures code == SUCCESS && Got(0) !in preads && '\n' in log.bytes[t.offset..] ==> t.offset < t'.offset
  {
    hide Records, HeadOf;
    var bytes := log.bytes;
    HeadIsPrefix(bytes);
    var c := Checked(t, log, true);
    assert c.offset == t.offset && c.head == t.head;
    if code == ERR_UNKNOWN {
      assert Records(bytes[..t.offset]) + [] == Records(bytes[..t.offset]);
    } else {
      var a, b := bytes[..t.offset], bytes[t.offset..t'.offset];
      assert bytes[..t'.offset] == a + b;
      RecordsConcat(a, b);
    }
  }

  /** No log yet is no error; one that cannot be opened or looked at is; and neither moves the tail. A read
      that fails gives no records. */
  lemma WithoutALog(t: Tail, found: Found, headRead: bool, maxBytes: nat, preads: seq<PRead>, t': Tail, code: Code,
                    records: seq<Record>)
    requires ReadNewSpec(t, found, headRead, maxBytes, preads, t', code, records)
    ensures found.NoLog? ==> code == SUCCESS
    ensures found.CannotOpen? || found.CannotStat? ==> code == ERR_UNKNOWN
    ensures !found.Log? ==> t' == t
    ensures !found.Log? || code == ERR_UNKNOWN ==> records == []
  {
    hide Records, HeadOf;
  }

  /** A log that only grows keeps being the log the tail follows. */
  lemma GrowthKeeps(t: Tail, inode: nat, bytes: string, more: string)
    requires Follows(t, inode, bytes)
    ensures Follows(t, inode, bytes + more)
    ensures (bytes + more)[..t.offset] == bytes[..t.offset]
  {
    assert (bytes + more)[..t.offset] == bytes[..t.offset];
    if t.offset > 0 {
      assert bytes[..t.offset][t.offset - 1] == '\n';
      SameHead(bytes, t.offset - 1, bytes + more);
    }
  }

  /** Nor does losing a suffix the tail has not consumed. */
  lemma ShrinkKeeps(t: Tail, inode: nat, bytes: string, k: nat)
    requires Follows(t, inode, bytes) && t.offset <= k <= |bytes|
    ensures Follows(t, inode, bytes[..k])
    ensures bytes[..k][..t.offset] == bytes[..t.offset]
  {
    assert bytes[..k][..t.offset] == bytes[..t.offset];
    if t.offset > 0 {
      assert bytes[..t.offset][t.offset - 1] == '\n';
      SameHead(bytes[..k], t.offset - 1, bytes);
    }
  }

  /** Growth and calls in any order; each call with any size limit and any read outcomes, and some
      that find no log or cannot open it. */
  datatype Event =
    | Grow(more: string)
    | Read(found: Found, maxBytes: nat, preads: seq<PRead>, after: Tail, code: Code, records: seq<Record>)

  /** From tail t0 and log b0 to tail t and log `bytes`; `total` is everything the calls returned. */
  ghost predicate Run(run: seq<Event>, inode: nat, b0: string, t0: Tail, bytes: string, t: Tail, total: seq<Record>)
  {
    if run == [] then bytes == b0 && t == t0 && total == []
    else
      var before := run[..|run| - 1];
      match run[|run| - 1]
      case Grow(more) => exists b :: Run(before, inode, b0, t0, b, t, total) && bytes == b + more
      case Read(found, maxBytes, preads, after, code, records) =>
        t == after && (found.Log? ==> found == Log(inode, bytes)) &&
        exists u, sofar :: Run(before, inode, b0, t0, bytes, u, sofar) && total == sofar + records &&
                           ReadNewSpec(u, found, true, maxBytes, preads, after, code, records)
  }

  /** A call that finds no log to read changes nothing. */
  lemma MissKeeps(t: Tail, found: Found, maxBytes: nat, preads: seq<PRead>, t': Tail, code: Code, records: seq<Record>)
    requires !found.Log? && ReadNewSpec(t, found, true, maxBytes, preads, t', code, records)
    ensures t' == t && records == []
  {
  }

  /** What calls return on top of what was consumed before. */
  ghost predicate AddsUp(t: Tail, bytes: string, before: seq<Record>, total: seq<Record>)
  {
    t.offset <= |bytes| && Records(bytes[..t.offset]) == before + total
  }

  lemma AddsMore(t: Tail, t': Tail, bytes: string, before: seq<Record>, total: seq<Record>, records: seq<Record>)
    requires AddsUp(t, bytes, before, total) && t'.offset <= |bytes|
    requires Records(bytes[..t'.offset]) == Records(bytes[..t.offset]) + records
    ensures AddsUp(t', bytes, before, total + records)
  {
    hide Records;
  }

  /** Whatever the pieces, a tail's calls return in total exactly the records of the bytes they
      consumed. */
  lemma {:induction false} PiecesAddUp(run: seq<Event>, inode: nat, b0: string, t0: Tail, bytes: string, t: Tail,
                                       total: seq<Record>)
    requires Run(run, inode, b0, t0, bytes, t, total) && Follows(t0, inode, b0)
    ensures Follows(t, inode, bytes) && AddsUp(t, bytes, Records(b0[..t0.offset]), total)
    decreases |run|
  {
    hide Records, ReadNewSpec, Follows, HeadOf, AddsUp;
    assert t0.offset <= |b0| by { FollowsWithin(t0, inode, b0); }
    var base := Records(b0[..t0.offset]);
    if run == [] {
      NothingAdded(t, inode, bytes);
    } else {
      var before := run[..|run| - 1];
      match run[|run| - 1] {
        case Grow(more) =>
          var b :| Run(before, inode, b0, t0, b, t, total) && bytes == b + more;
          PiecesAddUp(before, inode, b0, t0, b, t, total);
          GrowthKeeps(t, inode, b, more);
          GrowthAddsNothing(t, b, more, base, total);
        case Read(found, maxBytes, preads, after, code, records) =>
          var u, sofar :| Run(before, inode, b0, t0, bytes, u, sofar) && total == sofar + records &&
                          ReadNewSpec(u, found, true, maxBytes, preads, after, code, records);
          PiecesAddUp(before, inode, b0, t0, bytes, u, sofar);
          CallAddsUp(u, inode, bytes, found, maxBytes, preads, after, code, records, base, sofar);
      }
    }
  }

  lemma FollowsWithin(t: Tail, inode: nat, bytes: string)
    requires Follows(t, inode, bytes)
    ensures t.offset <= |bytes|
  {
  }

  lemma NothingAdded(t: Tail, inode: nat, bytes: string)
    requires Follows(t, inode, bytes)
    ensures AddsUp(t, bytes, Records(bytes[..t.offset]), [])
  {
    hide Records;
    assert Records(bytes[..t.offset]) + [] == Records(bytes[..t.offset]);
  }

  lemma GrowthAddsNothing(t: Tail, bytes: string, more: string, base: seq<Record>, total: seq<Record>)
    requires AddsUp(t, bytes, base, total)
    ensures AddsUp(t, bytes + more, base, total)
  {
    hide Records;
    assert (bytes + more)[..t.offset] == bytes[..t.offset];
  }

  lemma CallAddsUp(u: Tail, inode: nat, bytes: string, found: Found, maxBytes: nat, preads: seq<PRead>, after: Tail,
                   code: Code, records: seq<Record>, base: seq<Record>, sofar: seq<Record>)
    requires Follows(u, inode, bytes) && AddsUp(u, bytes, base, sofar) && (found.Log? ==> found == Log(inode, bytes))
    requires ReadNewSpec(u, found, true, maxBytes, preads, after, code, records)
    ensures Follows(after, inode, bytes) && AddsUp(after, bytes, base, sofar + records)
  {
    hide Records, ReadNewSpec, HeadOf;
    if found.Log? {
      ReadExtends(u, found, maxBytes, preads, after, code, records);
      AddsMore(u, after, bytes, base, sofar, records);
    } else {
      MissKeeps(u, found, maxBytes, preads, after, code, records);
      assert sofar + records == sofar;
    }
  }

  lemma FreshFollows(inode: nat)
    ensures Follows(NEW_TAIL, inode, "") && Records(""[..0]) == []
  {
    hide ParseManifestLine;
    LinesNone("");
  }

  /** A tail that starts with an empty log has returned exactly the records it consumed. */
  lemma FreshPiecesAddUp(run: seq<Event>, inode: nat, bytes: string, t: Tail, total: seq<Record>)
    requires Run(run, inode, "", NEW_TAIL, bytes, t, total)
    ensures Follows(t, inode, bytes) && total == Records(bytes[..t.offset])
  {
    hide Records, Run, HeadOf;
    FreshFollows(inode);
    PiecesAddUp(run, inode, "", NEW_TAIL, bytes, t, total);
    assert [] + total == total;
  }

  /** Once a call has nothing to advance over, everything on a complete line has been returned. */
  lemma DrainedMeansAll(t: Tail, inode: nat, bytes: string)
    requires Follows(t, inode, bytes) && '\n' !in bytes[t.offset..]
    ensures Records(bytes[..t.offset]) == Records(bytes)
  {
    hide Records;
    assert bytes == bytes[..t.offset] + bytes[t.offset..];
    RecordsIgnoreTail(bytes[..t.offset], bytes[t.offset..]);
  }

  /* ---- another log under the same name ---- */

  /** Exactly when a call starts over: another inode, fewer bytes than consumed, or a head that could
      not be read or is not the one remembered. */
  lemma StartsOverExactly(t: Tail, was: string, oldInode: nat, log: Found, headRead: bool)
    requires log.Log? && Follows(t, oldInode, was) && t.offset > 0
    ensures Checked(t, log, headRead).offset == 0 <==>
            log.inode != oldInode || |log.bytes| < t.offset || !headRead || !(HeadOf(was) <= log.bytes)
  {
    hide FirstNewline;
    HeadNotEmpty(was, t.offset);
  }

  lemma HeadNotEmpty(bytes: string, k: nat)
    requires 0 < k <= |bytes|
    ensures HeadOf(bytes) != ""
  {
  }

  /** A first line of less than 64 KiB is its own whole identity. */
  lemma SameHeadSameFirstLine(was: string, now: string)
    requires '\n' in was && FirstNewline(was) < 65536 && HeadOf(was) <= now
    ensures '\n' in now && was[..FirstNewline(was)] == now[..FirstNewline(now)]
  {
    var k, j := FirstNewline(was), FirstNewline(now);
    assert was[..|was|] == was;
    assert HeadOf(was) == was[..k + 1];
    assert now[k] == HeadOf(was)[k] == '\n';
    assert now[..|now|] == now && now[k] in now;
    assert forall x | 0 <= x < k :: now[x] == was[..k][x];
    assert forall x | 0 <= x < j :: now[x] == now[..j][x];
    assert j == k;
  }

  lemma ShortFirstLineIdentifies(was: string, now: string)
    requires '\n' in was && FirstNewline(was) < HEAD_BYTES
    requires '\n' !in now || was[..FirstNewline(was)] != now[..FirstNewline(now)]
    ensures !(HeadOf(was) <= now)
  {
    if HeadOf(was) <= now { SameHeadSameFirstLine(was, now); }
  }

  /** No first line of `now`, whole or still being written, is the short one that begins `was`. */
  predicate OtherFirstLine(was: string, now: string)
  {
    '\n' in was && FirstNewline(was) < 65536 &&
    ('\n' !in now || was[..FirstNewline(was)] != now[..FirstNewline(now)])
  }

  /** The first call after a replacement reads the new log from its start, even on the same inode and
      with no fewer bytes than were consumed; from then on the tail follows it. */
  lemma ReplacementIsReadFromItsStart(t: Tail, was: string, oldInode: nat, log: Found, headRead: bool, maxBytes: nat,
                                      preads: seq<PRead>, t': Tail, code: Code, records: seq<Record>)
    requires log.Log? && Follows(t, oldInode, was) && t.offset > 0 && !(HeadOf(was) <= log.bytes)
    requires ReadNewSpec(t, log, headRead, maxBytes, preads, t', code, records)
    ensures Follows(t', log.inode, log.bytes) && records == Records(log.bytes[..t'.offset])
  {
    hide Records, HeadOf, FirstNewline;
    StartsOverExactly(t, was, oldInode, log, headRead);
    assert t'.inode == log.inode;
    FreshFollows(log.inode);
    assert log.bytes[..0] == ""[..0];
    if code == SUCCESS { assert log.bytes[0..t'.offset] == log.bytes[..t'.offset]; }
  }

  /** A tail that consumed part of one log and now meets another under the same name: until a call
      finds the new log nothing is returned, and from then on the calls have returned exactly the
      consumed records of the new log, from its start. */
  ghost predicate OverToNewLog(t: Tail, t0: Tail, inode: nat, bytes: string, total: seq<Record>)
  {
    (t == t0 && total == []) || (Follows(t, inode, bytes) && total == Records(bytes[..t.offset]))
  }

  lemma {:induction false} ReplacementCalls(run: seq<Event>, was: string, oldInode: nat, inode: nat, b0: string,
                                            t0: Tail, bytes: string, t: Tail, total: seq<Record>)
    requires Run(run, inode, b0, t0, bytes, t, total)
    requires Follows(t0, oldInode, was) && t0.offset > 0 && !(HeadOf(was) <= bytes)
    ensures OverToNewLog(t, t0, inode, bytes, total)
    ensures (exists k :: 0 <= k < |run| && run[k].Read? && run[k].found.Log?) ==>
              Follows(t, inode, bytes) && total == Records(bytes[..t.offset])
    decreases |run|
  {
    hide Records, ReadNewSpec, Follows, HeadOf;
    if run != [] {
      var before := run[..|run| - 1];
      match run[|run| - 1] {
        case Grow(more) =>
          var b :| Run(before, inode, b0, t0, b, t, total) && bytes == b + more;
          ReplacementCalls(before, was, oldInode, inode, b0, t0, b, t, total);
          if Follows(t, inode, b) { GrowthKeeps(t, inode, b, more); }
        case Read(found, maxBytes, preads, after, code, records) =>
          var u, sofar :| Run(before, inode, b0, t0, bytes, u, sofar) && total == sofar + records &&
                          ReadNewSpec(u, found, true, maxBytes, preads, after, code, records);
          ReplacementCalls(before, was, oldInode, inode, b0, t0, bytes, u, sofar);
          if !found.Log? {
            MissKeeps(u, found, maxBytes, preads, after, code, records);
            assert sofar + records == sofar;
          } else if u == t0 && sofar == [] {
            ReplacementIsReadFromItsStart(u, was, oldInode, found, true, maxBytes, preads, after, code, records);
            assert [] + records == records;
          } else {
            ReadExtends(u, found, maxBytes, preads, after, code, records);
          }
      }
      assert forall k | 0 <= k < |before| :: run[k] == before[k];
    }
  }

  /** The same in terms of the two logs' first lines, once a call has found the new log. */
  lemma ReplacedLogIsReadWhole(run: seq<Event>, was: string, oldInode: nat, inode: nat, b0: string, t0: Tail,
                               bytes: string, t: Tail, total: seq<Record>)
    requires Run(run, inode, b0, t0, bytes, t, total) && Follows(t0, oldInode, was) && t0.offset > 0
    requires OtherFirstLine(was, bytes)
    requires exists k :: 0 <= k < |run| && run[k].Read? && run[k].found.Log?
    ensures Follows(t, inode, bytes) && total == Records(bytes[..t.offset])
  {
    hide Records, Run, Follows, HeadOf;
    ShortFirstLineIdentifies(was, bytes);
    ReplacementCalls(run, was, oldInode, inode, b0, t0, bytes, t, total);
  }

  /** Past 64 KiB two first lines can differ unnoticed: the tail goes on from its old offset. */
  lemma LongFirstLinesAreConfused()
    ensures var a := seq(HEAD_BYTES, _ => 'a');
            var was, now := a + "x\n", a + "y\n" + "{}\n";
            var t := Tail(|was|, 7, HeadOf(was));
            Follows(t, 7, was) && was[..FirstNewline(was)] != now[..FirstNewline(now)] &&
            Checked(t, Log(7, now), true) == t
  {
    var a := seq(HEAD_BYTES, _ => 'a');
    var was, now := a + "x\n", a + "y\n" + "{}\n";
    assert was[..|was|] == was;
    LongHead(a, "x", "");
    LongHead(a, "y", "{}\n");
    assert was == a + "x" + "\n" + "";
    assert now == a + "y" + "\n" + "{}\n";
    assert was[HEAD_BYTES] != now[HEAD_BYTES];
    assert was[..HEAD_BYTES + 1][HEAD_BYTES] != now[..HEAD_BYTES + 1][HEAD_BYTES];
  }

  lemma LongHead(a: string, b: string, rest: string)
    requires |a| == HEAD_BYTES && '\n' !in a && |b| == 1 && '\n' !in b
    ensures FirstNewline(a + b + "\n" + rest) == HEAD_BYTES + 1
    ensures HeadOf(a + b + "\n" + rest) == a
  {
    FirstNewlineOf(a + b, rest);
  }

  /** A head that cannot be read back makes the tail start over although the log is the same, so
      it returns records it has already returned. */
  lemma UnreadHeadRepeats(t: Tail, inode: nat, bytes: string, maxBytes: nat, preads: seq<PRead>, t': Tail,
                          records: seq<Record>)
    requires Follows(t, inode, bytes) && t.offset > 0
    requires ReadNewSpec(t, Log(inode, bytes), false, maxBytes, preads, t', SUCCESS, records)
    ensures records == Records(bytes[..t'.offset])
    ensures Got(0) !in preads ==> t'.offset > 0
  {
    hide Records, HeadOf;
    HeadNotEmpty(bytes, t.offset);
    assert bytes[0..t'.offset] == bytes[..t'.offset];
    assert bytes[..t.offset][t.offset - 1] == '\n';
    assert bytes[0..] == bytes;
  }
}
