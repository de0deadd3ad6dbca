/** Session rotation: the delete-and-rename cascade over a file system, where any
    step may fail. */
module Rotation {
  import opened Wrappers
  import opened Decimal

  type Fs = map<string, string>

  function Get(fs: Fs, path: string): Option<string> {
    if path in fs then Some(fs[path]) else None
  }

  /** `get_backup_path_for_index`. */
  function Slot(path: string, index: nat): string {
    if index == 0 then path else path + "." + Print(index)
  }

  /** Index 0 is the live file; backup i is the path, a point and the numeral of i
      without leading zeros; the first is `.1`. */
  lemma SlotName(path: string, i: nat) returns (digits: string)
    ensures Slot(path, 0) == path && Slot(path, 1) == path + ".1"
    ensures i > 0 ==> Slot(path, i) == path + "." + digits && AllDigits(digits) && Number(digits) == i && digits[0] != '0'
  {
    digits := Print(i);
    assert Print(1) == "1" && path + "." + "1" == path + ".1";
  }

  /** Distinct indices name distinct files. */
  lemma SlotInjective(path: string, i: nat, j: nat)
    requires Slot(path, i) == Slot(path, j)
    ensures i == j
  {
    assert i == 0 <==> |Slot(path, i)| == |path|;
    assert j == 0 <==> |Slot(path, j)| == |path|;
    if i > 0 && j > 0 {
      assert Slot(path, i)[|path| + 1..] == Print(i);
      assert Slot(path, j)[|path| + 1..] == Print(j);
      PrintInjective(i, j);
    }
  }

  /** A numbering of files, distinct for distinct numbers. */
  type Slots = nat -> string

  ghost predicate Injective(slot: Slots) {
    forall i: nat, j: nat :: slot(i) == slot(j) ==> i == j
  }

  function At(slot: Slots, i: nat): string {
    slot(i)
  }

  function Backups(path: string): Slots {
    (index: nat) => Slot(path, index)
  }

  lemma BackupsInjective(path: string)
    ensures Injective(Backups(path))
  {
    forall i: nat, j: nat | Backups(path)(i) == Backups(path)(j) ensures i == j {
      SlotInjective(path, i, j);
    }
  }

  ghost predicate IsSlot(p: string, slot: Slots, n: nat) {
    exists i: nat :: i <= n && p == slot(i)
  }

  /** Everything outside slots 0..n is as before. */
  ghost predicate SameOutside(before: Fs, after: Fs, slot: Slots, n: nat) {
    forall p {:trigger Get(after, p)} :: !IsSlot(p, slot, n) ==> Get(after, p) == Get(before, p)
  }

  /** The cascade after it has dealt with all indices above `m`: the slots below
      `m` are untouched, slot `m` is free, and what was in slots m..n-1 is one up. */
  ghost predicate Shifted(before: Fs, after: Fs, slot: Slots, n: nat, m: nat) {
    && m <= n
    && SameOutside(before, after, slot, n)
    && Get(after, slot(m)) == None
    && (forall i: nat {:trigger Get(after, slot(i))} :: i < m ==> Get(after, slot(i)) == Get(before, slot(i)))
    && (forall i: nat {:trigger Get(after, slot(i))} :: m < i <= n ==> Get(after, slot(i)) == Get(before, slot(i - 1)))
  }

  /** Deleting the last slot starts the cascade. */
  lemma DeleteStarts(before: Fs, slot: Slots, n: nat)
    requires Injective(slot)
    ensures Shifted(before, before - {At(slot, n)}, slot, n, n)
  {
    var after := before - {slot(n)};
    forall p | !IsSlot(p, slot, n) ensures Get(after, p) == Get(before, p) {
      assert p != slot(n);
    }
  }

  function Moved(fs: Fs, from: string, to: string): Fs {
    if from in fs then (fs - {from})[to := fs[from]] else fs
  }

  lemma MovedElsewhere(fs: Fs, from: string, to: string, p: string)
    requires p != from && p != to
    ensures Get(Moved(fs, from, to), p) == Get(fs, p)
  {
  }

  /** One rename takes the cascade one index down; its target was free. */
  lemma RenameShifts(before: Fs, fs: Fs, slot: Slots, n: nat, m: nat)
    requires Injective(slot) && Shifted(before, fs, slot, n, m) && 0 < m
    ensures At(slot, m) !in fs
    ensures Shifted(before, Moved(fs, At(slot, m - 1), At(slot, m)), slot, n, m - 1)
  {
    var from, to := slot(m - 1), slot(m);
    var after := Moved(fs, from, to);
    assert from != to && Get(fs, to) == None;
    forall i: nat | i <= n ensures
      && (i < m - 1 ==> Get(after, slot(i)) == Get(before, slot(i)))
      && (m - 1 < i ==> Get(after, slot(i)) == Get(before, slot(i - 1)))
    {
      if i < m - 1 {
        MovedElsewhere(fs, from, to, slot(i));
        assert Get(fs, slot(i)) == Get(before, slot(i));
      } else if i == m {
        assert Get(fs, from) == Get(before, from);
      } else if i > m {
        MovedElsewhere(fs, from, to, slot(i));
        assert Get(fs, slot(i)) == Get(before, slot(i - 1));
      }
    }
    forall p | !IsSlot(p, slot, n) ensures Get(after, p) == Get(before, p) {
      assert p != from && p != to;
      MovedElsewhere(fs, from, to, p);
    }
  }

  /** The file system after the delete and the renames to all slots above `m`. */
  function AfterCascade(fs: Fs, slot: Slots, n: nat, m: nat): Fs
    requires m <= n
    decreases n - m
  {
    if m == n then fs - {At(slot, n)}
    else Moved(AfterCascade(fs, slot, n, m + 1), At(slot, m), At(slot, m + 1))
  }

  lemma {:induction false} CascadeShifts(fs: Fs, slot: Slots, n: nat, m: nat)
    requires Injective(slot) && m <= n
    ensures Shifted(fs, AfterCascade(fs, slot, n, m), slot, n, m)
    ensures m > 0 ==> At(slot, m) !in AfterCascade(fs, slot, n, m)
    decreases n - m
  {
    if m == n {
      DeleteStarts(fs, slot, n);
    } else {
      CascadeShifts(fs, slot, n, m + 1);
      RenameShifts(fs, AfterCascade(fs, slot, n, m + 1), slot, n, m + 1);
    }
  }

  // ---- The cascade as it runs -----------------------------------------------------

  /** `fails(0)` decides whether the delete fails, `fails(i)` whether the rename to
      slot i does. */
  type Faults = nat -> bool

  class FileSystem {
    var files: Fs

    constructor (files: Fs)
      ensures this.files == files
    {
      this.files := files;
    }

    method RemoveIfPresent(path: string, fail: bool) returns (ok: bool)
      modifies this
      ensures ok == !fail && files == if ok then old(files) - {path} else old(files)
    {
      if fail {
        return false;
      }
      files := files - {path};
      return true;
    }

    method RenameIfPresent(from: string, to: string, fail: bool) returns (ok: bool)
      modifies this
      ensures ok == !fail && files == if ok then Moved(old(files), from, to) else old(files)
    {
      if fail {
        return false;
      }
      if from in files {
        files := (files - {from})[to := files[from]];
      }
      return true;
    }

    /** The cascade over any numbering of files, stopping at the first failure.
        `at` is the index it got to: 0 when it went all the way. */
    method Cascade(slot: Slots, maxBackups: nat, fails: Faults) returns (ok: bool, ghost at: nat)
      requires Injective(slot)
      modifies this
      ensures ok <==> forall i: nat :: i <= maxBackups ==> !fails(i)
      ensures ok ==> at == 0 && Shifted(old(files), files, slot, maxBackups, 0)
      ensures !ok && fails(0) ==> files == old(files)
      ensures !ok && !fails(0) ==>
        && 0 < at <= maxBackups && fails(at) && (forall i :: at < i <= maxBackups ==> !fails(i))
        && Shifted(old(files), files, slot, maxBackups, at)
      ensures !fails(0) ==> at <= maxBackups && files == AfterCascade(old(files), slot, maxBackups, at)
    {
      at := maxBackups;
      ok := RemoveIfPresent(At(slot, maxBackups), fails(0));
      if !ok {
        return;
      }
      var index := maxBackups;
      while index > 0
        invariant 0 <= index <= maxBackups && ok && at == index
        invariant files == AfterCascade(old(files), slot, maxBackups, index)
        invariant forall i :: index < i <= maxBackups ==> !fails(i)
      {
        CascadeShifts(old(files), slot, maxBackups, index);
        assert At(slot, index) !in files; // the rename overwrites nothing
        ok := RenameIfPresent(At(slot, index - 1), At(slot, index), fails(index));
        if !ok {
          return;
        }
        index := index - 1;
        at := index;
      }
      CascadeShifts(old(files), slot, maxBackups, 0);
    }

    /** `rotate`: the cascade over the live file and its numbered backups. */
    method Rotate(path: string, maxBackups: nat, fails: Faults) returns (ok: bool, ghost at: nat)
      modifies this
      ensures ok <==> forall i: nat :: i <= maxBackups ==> !fails(i)
      ensures ok ==> at == 0 && Shifted(old(files), files, Backups(path), maxBackups, 0)
      ensures !ok && fails(0) ==> files == old(files)
      ensures !ok && !fails(0) ==>
        && 0 < at <= maxBackups && fails(at) && (forall i :: at < i <= maxBackups ==> !fails(i))
        && Shifted(old(files), files, Backups(path), maxBackups, at)
      ensures !fails(0) ==> at <= maxBackups && files == AfterCascade(old(files), Backups(path), maxBackups, at)
    {
      BackupsInjective(path);
      ok, at := Cascade(Backups(path), maxBackups, fails);
    }

    /** Opens for appending, creating the file if it is missing. */
    method OpenAppend(path: string, fail: bool) returns (ok: bool)
      modifies this
      ensures ok == !fail
      ensures files == if ok && path !in old(files) then old(files)[path := ""] else old(files)
    {
      if fail {
        return false;
      }
      if path !in files {
        files := files[path := ""];
      }
      return true;
    }

    /** `try_from_options`: rotate, then open the live file, which is always new.
        When it fails, the cascade has stopped at `at` and nothing was opened. */
    method OpenSession(path: string, maxBackups: nat, fails: Faults, openFails: bool) returns (ok: bool, ghost at: nat)
      modifies this
      ensures ok <==> !openFails && forall i: nat :: i <= maxBackups ==> !fails(i)
      ensures ok ==> files == AfterSession(old(files), Backups(path), maxBackups, "")
      ensures ok ==> NextSession(old(files), files, Backups(path), maxBackups, "")
      ensures ok ==> Renamed(old(files), files, path, maxBackups)
      ensures !ok && fails(0) ==> files == old(files)
      ensures !ok && !fails(0) ==> at <= maxBackups && Shifted(old(files), files, Backups(path), maxBackups, at)
    {
      ok, at := Rotate(path, maxBackups, fails);
      if !ok {
        return;
      }
      assert Backups(path)(0) == path && Get(files, path) == None;
      ok := OpenAppend(path, openFails);
      if ok {
        BackupsInjective(path);
        SessionShifts(old(files), Backups(path), maxBackups, "");
        NamesShift(old(files), files, path, maxBackups);
      }
    }

    /** What a session writes goes to the end of its live file and nowhere else. */
    method Append(path: string, more: string)
      requires path in files
      modifies this
      ensures files == old(files)[path := old(files)[path] + more]
      ensures forall before: Fs, slot: Slots, n: nat, text: string {:trigger AfterSession(before, slot, n, text)} ::
                slot(0) == path && old(files) == AfterSession(before, slot, n, text) ==>
                files == AfterSession(before, slot, n, text + more)
    {
      files := files[path := files[path] + more];
    }
  }

  // ---- Nothing is lost -------------------------------------------------------------

  /** The contents of the first `k` slots that exist, in slot order. */
  function Present(fs: Fs, slot: Slots, k: nat): seq<string> {
    if k == 0 then []
    else Present(fs, slot, k - 1) + if slot(k - 1) in fs then [fs[slot(k - 1)]] else []
  }

  lemma {:induction false} PresentSame(before: Fs, after: Fs, slot: Slots, k: nat)
    requires forall i: nat :: i < k ==> Get(after, slot(i)) == Get(before, slot(i))
    ensures Present(after, slot, k) == Present(before, slot, k)
  {
    if k > 0 {
      PresentSame(before, after, slot, k - 1);
      assert Get(after, slot(k - 1)) == Get(before, slot(k - 1));
    }
  }

  /** Wherever the cascade stops, the contents of slots 0..n-1 are all still there,
      each exactly once and in the same order; only slot n was given up. */
  lemma {:induction false} NothingLost(before: Fs, after: Fs, slot: Slots, n: nat, m: nat, k: nat)
    requires Shifted(before, after, slot, n, m) && m <= k <= n
    ensures Present(after, slot, k + 1) == Present(before, slot, k)
    decreases k
  {
    if k == m {
      PresentSame(before, after, slot, m);
      assert Get(after, slot(m)) == None;
    } else {
      NothingLost(before, after, slot, n, m, k - 1);
      assert Get(after, slot(k)) == Get(before, slot(k - 1));
    }
  }

  // ---- Many sessions ----------------------------------------------------------------

  /** From one session's end to the next one's: rotated, with `text` in the live file. */
  ghost predicate NextSession(before: Fs, after: Fs, slot: Slots, n: nat, text: string) {
    && Get(after, slot(0)) == Some(text)
    && (forall i: nat {:trigger Get(after, slot(i))} :: 0 < i <= n ==> Get(after, slot(i)) == Get(before, slot(i - 1)))
    && SameOutside(before, after, slot, n)
  }

  /** What a session leaves that wrote `text`: the cascade, then its live file. */
  function AfterSession(fs: Fs, slot: Slots, n: nat, text: string): Fs {
    AfterCascade(fs, slot, n, 0)[At(slot, 0) := text]
  }

  lemma SessionShifts(before: Fs, slot: Slots, n: nat, text: string)
    requires Injective(slot)
    ensures NextSession(before, AfterSession(before, slot, n, text), slot, n, text)
  {
    var rotated, after := AfterCascade(before, slot, n, 0), AfterSession(before, slot, n, text);
    CascadeShifts(before, slot, n, 0);
    forall i: nat | 0 < i <= n ensures Get(after, slot(i)) == Get(before, slot(i - 1)) {
      assert Get(rotated, slot(i)) == Get(before, slot(i - 1));
    }
    forall p | !IsSlot(p, slot, n) ensures Get(after, p) == Get(before, p) {
      assert p != slot(0) && Get(rotated, p) == Get(before, p);
    }
  }

  /** The shift by name: the live file is new, the last session is `.1`, and each numbered
      backup moved to the next number. */
  ghost predicate Renamed(before: Fs, after: Fs, path: string, n: nat) {
    && Get(after, path) == Some("")
    && (n >= 1 ==> Get(after, path + ".1") == Get(before, path))
    && (n >= 2 ==> Get(after, path + ".2") == Get(before, path + ".1"))
    && (forall i: nat {:trigger Print(i)} :: 0 < i < n ==> Get(after, path + "." + Print(i + 1)) == Get(before, path + "." + Print(i)))
  }

  lemma NamesShift(before: Fs, after: Fs, path: string, n: nat)
    requires NextSession(before, after, Backups(path), n, "")
    ensures Renamed(before, after, path, n)
  {
    var slot := Backups(path);
    assert Print(1) == "1" && Print(2) == "2" && path + "." + "1" == path + ".1" && path + "." + "2" == path + ".2";
    assert slot(0) == path && slot(1) == path + ".1" && slot(2) == path + ".2";
    assert n >= 1 ==> Get(after, slot(1)) == Get(before, slot(1 - 1));
    assert n >= 2 ==> Get(after, slot(2)) == Get(before, slot(2 - 1));
    forall i: nat | 0 < i < n ensures Get(after, path + "." + Print(i + 1)) == Get(before, path + "." + Print(i)) {
      assert slot(i + 1) == path + "." + Print(i + 1) && slot(i) == path + "." + Print(i);
      assert Get(after, slot(i + 1)) == Get(before, slot(i + 1 - 1));
    }
  }

  /** Sessions one after the other, session j+1 leaving `texts[j]`. */
  ghost predicate Sessions(states: seq<Fs>, texts: seq<string>, slot: Slots, n: nat) {
    && |states| == |texts| + 1
    && forall j :: 0 <= j < |texts| ==> states[j + 1] == AfterSession(states[j], slot, n, texts[j])
  }

  /** What slot `i` holds after `k` sessions: the session i before the last, or,
      past the first session, what slot i-k held at the start, present or not. */
  function SlotAfter(start: Fs, texts: seq<string>, slot: Slots, k: nat, i: nat): Option<string>
    requires k <= |texts|
  {
    if i < k then Some(texts[k - 1 - i]) else Get(start, slot(i - k))
  }

  ghost predicate AfterSessions(start: Fs, fs: Fs, texts: seq<string>, slot: Slots, n: nat, k: nat)
    requires k <= |texts|
  {
    && (forall i: nat {:trigger Get(fs, slot(i))} :: i <= n ==> Get(fs, slot(i)) == SlotAfter(start, texts, slot, k, i))
    && SameOutside(start, fs, slot, n)
  }

  lemma OneMoreSession(start: Fs, fs: Fs, fs': Fs, texts: seq<string>, slot: Slots, n: nat, k: nat)
    requires 0 < k <= |texts| && AfterSessions(start, fs, texts, slot, n, k - 1)
    requires NextSession(fs, fs', slot, n, texts[k - 1])
    ensures AfterSessions(start, fs', texts, slot, n, k)
  {
    forall i: nat | i <= n ensures Get(fs', slot(i)) == SlotAfter(start, texts, slot, k, i) {
      if i > 0 {
        assert Get(fs', slot(i)) == Get(fs, slot(i - 1));
      }
    }
  }

  lemma {:induction false} SlotsAfterSessions(states: seq<Fs>, texts: seq<string>, slot: Slots, n: nat, k: nat)
    requires Injective(slot) && Sessions(states, texts, slot, n) && k <= |texts|
    ensures AfterSessions(states[0], states[k], texts, slot, n, k)
  {
    if k > 0 {
      SlotsAfterSessions(states, texts, slot, n, k - 1);
      SessionShifts(states[k - 1], slot, n, texts[k - 1]);
      OneMoreSession(states[0], states[k - 1], states[k], texts, slot, n, k);
    }
  }

  /** After `k` sessions on `path` from any starting file system, every slot is
      accounted for, and every other file is as at the start. */
  lemma ManySessions(states: seq<Fs>, texts: seq<string>, path: string, n: nat, k: nat)
    requires Sessions(states, texts, Backups(path), n) && k <= |texts|
    ensures AfterSessions(states[0], states[k], texts, Backups(path), n, k)
  {
    BackupsInjective(path);
    SlotsAfterSessions(states, texts, Backups(path), n, k);
  }
}
