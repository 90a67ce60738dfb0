/** The rotating audit log: file 0 is the current one, file `k` the backup with suffix `.k`. */
module AuditLogs {
  /** One line; its content is opaque, its encoded size is what counts. */
  datatype Record = Record(id: nat, bytes: nat)

  type Files = map<nat, seq<Record>>

  function At(files: Files, k: nat): seq<Record> {
    if k in files then files[k] else []
  }

  function Size(s: seq<Record>): nat {
    if s == [] then 0 else Size(s[..|s| - 1]) + s[|s| - 1].bytes
  }

  /** The files up to backup `n`, read from the oldest to the current one. */
  function Log(files: Files, n: nat): seq<Record> {
    At(files, n) + if n == 0 then [] else Log(files, n - 1)
  }

  lemma SizeAddsTheBytes(s: seq<Record>, r: Record)
    ensures Size([]) == 0 && Size(s + [r]) == Size(s) + r.bytes
  {
    assert (s + [r])[..|s|] == s;
  }

  /** The write would take the current file over the limit. */
  predicate Overflows(files: Files, maxBytes: nat, r: Record) {
    Size(At(files, 0)) + r.bytes > maxBytes
  }

  /** No file beyond the last backup, and each within the limit unless it is one oversized record. */
  ghost predicate Tidy(files: Files, n: nat, maxBytes: nat) {
    forall k :: k in files ==> k <= n && (Size(files[k]) <= maxBytes || |files[k]| == 1)
  }

  /** What one call of `audit` may do. `drop` tells whether the oldest backup went: only when the
      current file would overflow, and always when an overflowing record was written. Everything else
      stays, in order, with the record after it if the call succeeds. */
  ghost predicate Turn(before: Files, after: Files, n: nat, maxBytes: nat, r: Record, ok: bool, drop: bool) {
    && Tidy(after, n, maxBytes)
    && (drop ==> Size(At(before, 0)) + r.bytes > maxBytes)
    && (ok && Size(At(before, 0)) + r.bytes > maxBytes ==> drop && At(after, 0) == [r])
    && Log(after, n) == Log(if drop then before - {n} else before, n) + (if ok then [r] else [])
  }

  // ---- reading order under moves ----

  lemma {:induction false} SameLog(f: Files, g: Files, n: nat)
    requires forall k: nat :: k <= n ==> At(f, k) == At(g, k)
    ensures Log(f, n) == Log(g, n)
  {
    if n > 0 {
      SameLog(f, g, n - 1);
    }
  }

  function Moved(files: Files, i: nat): Files
    requires i in files
  {
    files[i + 1 := files[i]] - {i}
  }

  function Below(files: Files, i: nat): seq<Record> {
    if i == 0 then [] else Log(files, i - 1)
  }

  lemma TopTwo(files: Files, i: nat)
    ensures Log(files, i + 1) == At(files, i + 1) + (At(files, i) + Below(files, i))
  {
    assert Log(files, i + 1) == At(files, i + 1) + Log(files, i);
  }

  lemma Skip(none: seq<Record>, x: seq<Record>, rest: seq<Record>)
    requires none == []
    ensures x + (none + rest) == none + (x + rest) && none + rest == rest
  {
  }

  lemma MovedAt(files: Files, i: nat)
    requires i in files && i + 1 !in files
    ensures var moved := Moved(files, i);
            && At(moved, i + 1) == At(files, i) && At(moved, i) == [] && At(files, i + 1) == []
            && forall k: nat :: k != i && k != i + 1 ==> At(moved, k) == At(files, k)
  {
  }

  lemma MoveKeepsTopTwo(files: Files, i: nat)
    requires i in files && i + 1 !in files
    ensures Log(Moved(files, i), i + 1) == Log(files, i + 1)
  {
    MovedAt(files, i);
    TopTwo(files, i);
    TopTwo(Moved(files, i), i);
    BelowSame(files, Moved(files, i), i);
    hide Log, At, Below, Moved;
    Skip([], At(files, i), Below(files, i));
  }

  lemma BelowSame(f: Files, g: Files, i: nat)
    requires forall k: nat :: k < i ==> At(f, k) == At(g, k)
    ensures Below(f, i) == Below(g, i)
  {
    hide At;
    if i > 0 {
      SameLog(f, g, i - 1);
    }
  }

  /** Renaming a file to the free number above it does not change what is read. */
  lemma {:induction false} MoveKeepsLog(files: Files, i: nat, n: nat)
    requires i in files && i + 1 !in files && i + 1 <= n
    ensures Log(Moved(files, i), n) == Log(files, n)
  {
    if n == i + 1 {
      MoveKeepsTopTwo(files, i);
    } else {
      MoveKeepsLog(files, i, n - 1);
      assert At(Moved(files, i), n) == At(files, n);
    }
  }

  lemma {:induction false} AppendToCurrent(files: Files, s: seq<Record>, r: Record, n: nat)
    requires s == At(files, 0)
    ensures Log(files[0 := s + [r]], n) == Log(files, n) + [r]
  {
    if n > 0 {
      AppendToCurrent(files, s, r, n - 1);
      assert At(files[0 := s + [r]], n) == At(files, n);
    }
  }

  lemma DropIsFromTheFront(files: Files, n: nat)
    requires n > 0
    ensures Log(files, n) == At(files, n) + Log(files - {n}, n)
  {
    var rest := files - {n};
    assert forall k: nat :: k < n ==> At(files, k) == At(rest, k);
    assert At(rest, n) == [];
    BelowSame(files, rest, n);
    assert Log(rest, n) == At(rest, n) + Below(rest, n);
    hide Log, At, Below;
    Skip(At(rest, n), [], Below(rest, n));
  }

  lemma WriteCompletesTheTurn(before: Files, mid: Files, n: nat, maxBytes: nat, r: Record, drop: bool)
    requires Tidy(mid, n, maxBytes) && (!Overflows(before, maxBytes, r) ==> !drop && mid == before)
    requires Overflows(before, maxBytes, r) ==> drop && 0 !in mid
    requires Log(mid, n) == Log(if drop then before - {n} else before, n)
    ensures Turn(before, mid[0 := At(mid, 0) + [r]], n, maxBytes, r, true, drop)
  {
    AppendToCurrent(mid, At(mid, 0), r, n);
    SizeAddsTheBytes(At(mid, 0), r);
    hide Log, Size;
  }

  // ---- the object ----

  /** The directory refuses file operations once `budget` of them have succeeded. */
  class AuditLog {
    const maxBytes: nat
    const backups: nat
    var files: Files
    var budget: nat

    constructor (maxBytes: nat, backups: nat)
      requires maxBytes > 0 && backups > 0
      ensures this.maxBytes == maxBytes && this.backups == backups && files == map[]
    {
      this.maxBytes, this.backups := maxBytes, backups;
      files := map[];
      budget := 0;
    }

    method Operation() returns (ok: bool)
      modifies this`budget
      ensures ok == (old(budget) > 0) && budget == if ok then old(budget) - 1 else 0
    {
      ok := budget > 0;
      if ok {
        budget := budget - 1;
      }
    }

    /** Shifts every file up by one number, highest first. An error can stop it between any two steps. */
    method Rotate(r: Record) returns (ok: bool, ghost drop: bool)
      requires backups > 0 && Tidy(files, backups, maxBytes)
      modifies this
      ensures Tidy(files, backups, maxBytes)
      ensures !Overflows(old(files), maxBytes, r) ==> ok && !drop && files == old(files)
      ensures Overflows(old(files), maxBytes, r) && ok ==> drop && 0 !in files
      ensures Log(files, backups) == Log(if drop then old(files) - {backups} else old(files), backups)
      ensures old(budget) > backups ==> ok
      ensures ok ==> budget >= if drop then old(budget) - backups - 1 else old(budget)
    {
      hide Log, Size;
      drop := false;
      if Size(At(files, 0)) + r.bytes <= maxBytes {
        return true, false;
      }
      ok := Operation();
      if !ok {
        return false, false;
      }
      files := files - {backups};
      drop := true;
      ghost var base := files;
      var index := backups - 1;
      while index > 0
        invariant 0 <= index < backups && index + 1 !in files
        invariant Tidy(files, backups, maxBytes) && Log(files, backups) == Log(base, backups)
        invariant budget >= old(budget) - backups + index
      {
        if index in files {
          ok := Operation();
          if !ok {
            return false, true;
          }
          MoveKeepsLog(files, index, backups);
          files := files[index + 1 := files[index]] - {index};
        }
        index := index - 1;
      }
      if 0 in files {
        ok := Operation();
        if !ok {
          return false, true;
        }
        MoveKeepsLog(files, 0, backups);
        files := files[1 := files[0]] - {0};
      }
      return true, true;
    }

    method Audit(r: Record, budget: nat) returns (ok: bool, ghost drop: bool)
      requires backups > 0 && Tidy(files, backups, maxBytes)
      modifies this
      ensures Turn(old(files), files, backups, maxBytes, r, ok, drop)
      ensures budget > backups + 1 ==> ok
    {
      hide Log, Size;
      this.budget := budget;
      ok, drop := Rotate(r);
      if !ok {
        return;
      }
      ok := Operation();
      if !ok {
        return;
      }
      WriteCompletesTheTurn(old(files), files, backups, maxBytes, r, drop);
      files := files[0 := At(files, 0) + [r]];
    }
  }

  // ---- every run ----

  datatype Write = Write(r: Record, ok: bool, drop: bool)

  ghost predicate RunOk(states: seq<Files>, writes: seq<Write>, n: nat, maxBytes: nat) {
    && |states| == |writes| + 1
    && forall i :: 0 <= i < |writes| ==>
         var next := i + 1;
         Turn(states[i], states[next], n, maxBytes, writes[i].r, writes[i].ok, writes[i].drop)
  }

  function Written(writes: seq<Write>): seq<Record> {
    if writes == [] then []
    else var last := writes[|writes| - 1]; Written(writes[..|writes| - 1]) + (if last.ok then [last.r] else [])
  }

  ghost predicate EndsWith(all: seq<Record>, tail: seq<Record>) {
    |tail| <= |all| && all[|all| - |tail|..] == tail
  }

  lemma EndOfTheEnd(all: seq<Record>, a: seq<Record>, b: seq<Record>)
    requires EndsWith(all, a + b)
    ensures EndsWith(all, b)
  {
    assert b == (a + b)[|a|..];
  }

  lemma EndGrows(all: seq<Record>, tail: seq<Record>, more: seq<Record>)
    requires EndsWith(all, tail)
    ensures EndsWith(all + more, tail + more)
  {
  }

  lemma TurnKeepsTheEnd(before: Files, after: Files, n: nat, maxBytes: nat, w: Write, all: seq<Record>)
    requires n > 0 && EndsWith(all, Log(before, n)) && Turn(before, after, n, maxBytes, w.r, w.ok, w.drop)
    ensures EndsWith(all + (if w.ok then [w.r] else []), Log(after, n))
  {
    hide EndsWith, Tidy, Overflows, At, Log;
    DropIsFromTheFront(before, n);
    EndOfTheEnd(all, At(before, n), Log(before - {n}, n));
    EndGrows(all, Log(if w.drop then before - {n} else before, n), if w.ok then [w.r] else []);
  }

  lemma {:induction false} EmptyLog(n: nat)
    ensures Log(map[], n) == []
  {
    if n > 0 {
      EmptyLog(n - 1);
    }
  }

  lemma {:induction false} KeysBounded(s: set<nat>, n: nat)
    requires forall k :: k in s ==> k <= n
    ensures |s| <= n + 1
  {
    if n == 0 {
      assert s <= {0};
      assert |s| + |{0} - s| == |{0}|;
    } else {
      KeysBounded(s - {n}, n - 1);
      assert s <= (s - {n}) + {n};
    }
  }

  /** After any sequence of audits, failed ones and interrupted rotations included, the files read from
      the oldest to the current are the latest part of all that was written, in order; there are at
      most `n + 1` of them, each within the limit unless it holds one oversized record. */
  lemma {:induction false} LogIsTheEndOfAllWritten(states: seq<Files>, writes: seq<Write>, n: nat, maxBytes: nat)
    requires n > 0 && RunOk(states, writes, n, maxBytes) && states[0] == map[]
    ensures var files := states[|writes|];
            EndsWith(Written(writes), Log(files, n)) && Tidy(files, n, maxBytes) && |files| <= n + 1
    decreases |writes|
  {
    if writes == [] {
      EmptyLog(n);
    } else {
      var m := |writes| - 1;
      LogIsTheEndOfAllWritten(states[..m + 1], writes[..m], n, maxBytes);
      assert states[..m + 1][m] == states[m];
      TurnKeepsTheEnd(states[m], states[m + 1], n, maxBytes, writes[m], Written(writes[..m]));
    }
    KeysBounded(states[|writes|].Keys, n);
  }
}
