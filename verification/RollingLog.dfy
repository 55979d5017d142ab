/** The rolling log: a current file and numbered backups (internal/rollinglog/rollinglog.go). */
module RollingLog {
  import opened Bytes

  /** The directory: file 0 is the log itself, file i its backup number i. */
  type Files = map<nat, seq<byte>>

  /** Renaming over whatever is there; nothing happens when the source is missing. */
  function Renamed(fs: Files, from: nat, to: nat): Files
    requires from != to
  {
    if from in fs then fs[to := fs[from]] - {from} else fs
  }

  /** Shifting the backups up, the highest first. */
  function Shifted(fs: Files, i: nat): Files
    decreases i
  {
    if i == 0 then fs else Shifted(Renamed(fs, i, i + 1), i - 1)
  }

  function Rotated(fs: Files, keep: nat): Files
    requires keep >= 1
  {
    Renamed(Shifted(fs, keep - 1), 0, 1)
  }

  function Content(fs: Files): seq<byte> {
    if 0 in fs then fs[0] else []
  }

  function Written(fs: Files, maxBytes: nat, keep: nat, b: seq<byte>): Files
    requires keep >= 1
  {
    var fs' := if 0 in fs && |fs[0]| >= maxBytes then Rotated(fs, keep) else fs;
    fs'[0 := Content(fs') + b]
  }

  class Manager {
    const maxBytes: nat
    const keep: nat
    var files: Files

    /** Settings of 0 or less fall back to 64 MiB and three backups. */
    constructor (maxBytes: int, keep: int, files: Files)
      ensures this.maxBytes == (if maxBytes <= 0 then 0x400_0000 else maxBytes)
      ensures this.keep == (if keep <= 0 then 3 else keep)
      ensures this.files == files && this.maxBytes > 0 && this.keep > 0
    {
      this.maxBytes := if maxBytes <= 0 then 64 * 1024 * 1024 else maxBytes;
      this.keep := if keep <= 0 then 3 else keep;
      this.files := files;
    }

    method Rename(from: nat, to: nat)
      requires from != to
      modifies this
      ensures files == Renamed(old(files), from, to)
    {
      if from in files {
        files := files[to := files[from]];
        files := files - {from};
      }
    }

    method Rotate()
      requires keep >= 1
      modifies this
      ensures files == Rotated(old(files), keep)
    {
      var i := keep - 1;
      while i >= 1
        invariant 0 <= i < keep
        invariant Shifted(files, i) == Shifted(old(files), keep - 1)
      {
        if i in files {
          Rename(i, i + 1);
        }
        i := i - 1;
      }
      Rename(0, 1);
    }

    method Write(b: seq<byte>)
      requires keep >= 1
      modifies this
      ensures files == Written(old(files), maxBytes, keep, b)
    {
      if 0 in files && |files[0]| >= maxBytes {
        Rotate();
      }
      files := files[0 := Content(files) + b];
    }
  }

  // ---- the shape of the directory ----

  /** Exactly the backups 1..m exist, besides perhaps the log itself. */
  ghost predicate Backups(fs: Files, m: nat) {
    forall i: nat :: i in fs <==> i <= m && (i != 0 || 0 in fs)
  }

  predicate SameAt(a: Files, b: Files, j: nat) {
    (j in a <==> j in b) && (j in a ==> a[j] == b[j])
  }

  /** After shifting `i` slots of which the first `m` are filled: those move up by one, slot 1 is free,
      the rest stays. */
  lemma {:induction false} ShiftedAt(fs: Files, i: nat, m: nat, j: nat)
    requires forall k: nat :: 1 <= k <= i ==> (k in fs <==> k <= m)
    ensures var fs' := Shifted(fs, i);
            && (j == 0 || j >= i + 2 || (j == i + 1 && i > m) ==> SameAt(fs', fs, j))
            && (2 <= j <= i + 1 && j <= m + 1 ==> j in fs' && fs'[j] == fs[j - 1])
            && (1 <= j <= i && (j == 1 || j > m + 1) ==> j !in fs')
    decreases i
  {
    if i > 0 {
      ShiftedAt(Renamed(fs, i, i + 1), i - 1, m, j);
    }
  }

  function Min(a: nat, b: nat): nat { if a < b then a else b }

  /** Rotating moves every file up by one; only the backup beyond `keep` is lost. */
  lemma RotatedIs(fs: Files, keep: nat, m: nat)
    requires keep >= 1 && m <= keep && Backups(fs, m) && 0 in fs
    ensures var fs' := Rotated(fs, keep);
            && 0 !in fs' && Backups(fs', Min(m + 1, keep))
            && (forall j: nat :: 1 <= j <= Min(m + 1, keep) ==> j in fs' && fs'[j] == fs[j - 1])
  {
    ShiftedAt(fs, keep - 1, m, 0);
    forall j: nat | j >= 1
      ensures j in Rotated(fs, keep) <==> j <= Min(m + 1, keep)
      ensures j <= Min(m + 1, keep) ==> j in Rotated(fs, keep) && Rotated(fs, keep)[j] == fs[j - 1]
    {
      ShiftedAt(fs, keep - 1, m, j);
    }
  }

  // ---- what the files hold ----

  /** The backups from `m` down to 1, oldest first. */
  ghost function Older(fs: Files, m: nat): seq<byte>
    requires forall j: nat :: 1 <= j <= m ==> j in fs
  {
    if m == 0 then [] else fs[m] + Older(fs, m - 1)
  }

  /** Directory and history: everything written is what got lost, then the backups oldest first, then
      the log; every backup is full; something is lost only once `keep` backups exist. */
  ghost predicate LogInv(fs: Files, m: nat, lost: seq<byte>, written: seq<byte>, maxBytes: nat, keep: nat) {
    && m <= keep && Backups(fs, m)
    && (forall j: nat :: 1 <= j <= m ==> |fs[j]| >= maxBytes)
    && written == lost + (Older(fs, m) + Content(fs))
    && (lost != [] ==> m == keep)
  }

  lemma {:induction false} OlderSame(a: Files, b: Files, m: nat)
    requires forall j: nat :: 1 <= j <= m ==> j in a && j in b && a[j] == b[j]
    ensures Older(a, m) == Older(b, m)
  {
    if m > 0 {
      OlderSame(a, b, m - 1);
    }
  }

  /** Moving the files up by one appends the log to the backups. */
  lemma {:induction false} OlderShifted(fs: Files, fs': Files, m: nat)
    requires forall j: nat :: j <= m ==> j in fs
    requires forall j: nat :: 1 <= j <= m + 1 ==> j in fs' && fs'[j] == fs[j - 1]
    ensures Older(fs', m + 1) == Older(fs, m) + fs[0]
  {
    if m == 0 {
      assert Older(fs', 0) == [];
    } else {
      OlderShifted(fs, fs', m - 1);
    }
  }

  lemma {:induction false} OlderVolume(fs: Files, m: nat, maxBytes: nat)
    requires forall j: nat :: 1 <= j <= m ==> j in fs && |fs[j]| >= maxBytes
    ensures |Older(fs, m)| >= m * maxBytes
  {
    if m > 0 {
      OlderVolume(fs, m - 1, maxBytes);
      assert m * maxBytes == (m - 1) * maxBytes + maxBytes;
    }
  }

  lemma AppendRegroup(lost: seq<byte>, older: seq<byte>, content: seq<byte>, b: seq<byte>)
    ensures (lost + (older + content)) + b == lost + (older + (content + b))
  {
  }

  lemma RotateRegroup(lost: seq<byte>, oldest: seq<byte>, older: seq<byte>, content: seq<byte>)
    ensures lost + ((oldest + older) + content) == (lost + oldest) + (older + content)
  {
  }

  lemma AppendKeeps(fs: Files, m: nat, lost: seq<byte>, written: seq<byte>, maxBytes: nat, keep: nat, b: seq<byte>)
    requires LogInv(fs, m, lost, written, maxBytes, keep)
    ensures LogInv(fs[0 := Content(fs) + b], m, lost, written + b, maxBytes, keep)
  {
    OlderSame(fs, fs[0 := Content(fs) + b], m);
    AppendRegroup(lost, Older(fs, m), Content(fs), b);
  }

  lemma RotateKeeps(fs: Files, m: nat, lost: seq<byte>, written: seq<byte>, maxBytes: nat, keep: nat)
    returns (lost': seq<byte>)
    requires keep >= 1 && LogInv(fs, m, lost, written, maxBytes, keep) && 0 in fs && |fs[0]| >= maxBytes
    ensures LogInv(Rotated(fs, keep), Min(m + 1, keep), lost', written, maxBytes, keep)
  {
    var fs' := Rotated(fs, keep);
    RotatedIs(fs, keep, m);
    assert Content(fs') == [] && Content(fs) == fs[0];
    if m < keep {
      lost' := lost;
      OlderShifted(fs, fs', m);
    } else {
      lost' := lost + fs[m];
      OlderShifted(fs, fs', m - 1);
      RotateRegroup(lost, fs[m], Older(fs, m - 1), fs[0]);
    }
  }

  function Run(ws: seq<seq<byte>>, maxBytes: nat, keep: nat): Files
    requires keep >= 1
  {
    if ws == [] then map[] else Written(Run(ws[..|ws| - 1], maxBytes, keep), maxBytes, keep, ws[|ws| - 1])
  }

  function All(ws: seq<seq<byte>>): seq<byte> {
    if ws == [] then [] else All(ws[..|ws| - 1]) + ws[|ws| - 1]
  }

  lemma {:induction false} RunLog(ws: seq<seq<byte>>, maxBytes: nat, keep: nat) returns (m: nat, lost: seq<byte>)
    requires keep >= 1
    ensures LogInv(Run(ws, maxBytes, keep), m, lost, All(ws), maxBytes, keep)
  {
    if ws == [] {
      m, lost := 0, [];
    } else {
      var init := ws[..|ws| - 1];
      m, lost := RunLog(init, maxBytes, keep);
      var fs := Run(init, maxBytes, keep);
      if 0 in fs && |fs[0]| >= maxBytes {
        lost := RotateKeeps(fs, m, lost, All(init), maxBytes, keep);
        m := Min(m + 1, keep);
        AppendKeeps(Rotated(fs, keep), m, lost, All(init), maxBytes, keep, ws[|ws| - 1]);
      } else {
        AppendKeeps(fs, m, lost, All(init), maxBytes, keep, ws[|ws| - 1]);
      }
    }
  }

  /** `m` backups exist; they and the log are what is left of `written`. */
  ghost predicate Keeps(fs: Files, m: nat, lost: seq<byte>, written: seq<byte>, maxBytes: nat, keep: nat) {
    && m <= keep && Backups(fs, m)
    && written == lost + (Older(fs, m) + Content(fs))
    && (m < keep ==> lost == [])
    && |Older(fs, m) + Content(fs)| >= Min(|written|, keep * maxBytes)
  }

  /** From an empty directory, after any writes: the backups are 1..m with m at most `keep`; oldest first
      and followed by the log they are a suffix of everything written; nothing is missing while m is
      below `keep`; and at least min(total, keep*maxBytes) bytes are still there. */
  lemma LogKeepsSuffix(ws: seq<seq<byte>>, maxBytes: nat, keep: nat)
    requires keep >= 1
    ensures exists m: nat, lost: seq<byte> :: Keeps(Run(ws, maxBytes, keep), m, lost, All(ws), maxBytes, keep)
  {
    var m, lost := RunLog(ws, maxBytes, keep);
    OlderVolume(Run(ws, maxBytes, keep), m, maxBytes);
    assert Keeps(Run(ws, maxBytes, keep), m, lost, All(ws), maxBytes, keep);
  }

  // ---- when it rotates ----

  predicate Full(fs: Files, maxBytes: nat) { 0 in fs && |fs[0]| >= maxBytes }

  /** A write on a full log: the log is that write alone, the former log and backups are the backups one higher,
      up to number `keep`. */
  ghost predicate RotatedBy(fs: Files, fs': Files, keep: nat, b: seq<byte>) {
    && 0 in fs && 0 in fs' && fs'[0] == b
    && forall j: nat :: j >= 1 ==> (j in fs' <==> j <= keep && j - 1 in fs) && (j in fs' ==> fs'[j] == fs[j - 1])
  }

  lemma FullRotates(fs: Files, m: nat, maxBytes: nat, keep: nat, b: seq<byte>)
    requires keep >= 1 && m <= keep && Backups(fs, m) && Full(fs, maxBytes)
    ensures RotatedBy(fs, Written(fs, maxBytes, keep, b), keep, b)
  {
    RotatedIs(fs, keep, m);
    assert Content(Rotated(fs, keep)) + b == b;
  }

  lemma RunOneMore(ws: seq<seq<byte>>, b: seq<byte>, maxBytes: nat, keep: nat)
    requires keep >= 1
    ensures Run(ws + [b], maxBytes, keep) == Written(Run(ws, maxBytes, keep), maxBytes, keep, b)
  {
    assert (ws + [b])[..|ws|] == ws;
  }

  /** After any writes from an empty directory, the next write finds a full log if and only if afterwards the log
      is that write alone and backup 1 is the former log; then every file has moved up by one. It appends, and
      touches no backup, if and only if the log was not full. */
  lemma RotatesExactly(ws: seq<seq<byte>>, b: seq<byte>, maxBytes: nat, keep: nat)
    requires keep >= 1 && maxBytes >= 1
    ensures var fs, fs' := Run(ws, maxBytes, keep), Run(ws + [b], maxBytes, keep);
            && (Full(fs, maxBytes) <==> 0 in fs && 0 in fs' && fs'[0] == b && 1 in fs' && fs'[1] == fs[0])
            && (Full(fs, maxBytes) ==> RotatedBy(fs, fs', keep, b))
            && (!Full(fs, maxBytes) <==> fs' == fs[0 := Content(fs) + b])
  {
    var fs := Run(ws, maxBytes, keep);
    var m, lost := RunLog(ws, maxBytes, keep);
    RunOneMore(ws, b, maxBytes, keep);
    if Full(fs, maxBytes) {
      FullRotates(fs, m, maxBytes, keep, b);
    }
  }

  // ---- how large the files get ----

  /** No file exceeds the maximum by a whole write. */
  ghost predicate Small(fs: Files, maxBytes: nat, top: nat) {
    forall j <- fs :: |fs[j]| < maxBytes + top
  }

  lemma RotationKeepsSmall(fs: Files, fs': Files, maxBytes: nat, keep: nat, b: seq<byte>, top: nat)
    requires maxBytes >= 1 && RotatedBy(fs, fs', keep, b) && Small(fs, maxBytes, top) && |b| <= top
    ensures Small(fs', maxBytes, top)
  {
    forall j | j in fs'
      ensures |fs'[j]| < maxBytes + top
    {
      if j >= 1 {
        assert j - 1 in fs;
      }
    }
  }

  /** After any writes of at most `top` bytes the log is smaller than the maximum plus the last write, and every
      backup smaller than the maximum plus `top`. */
  lemma {:induction false} LogStaysSmall(ws: seq<seq<byte>>, maxBytes: nat, keep: nat, top: nat)
    requires keep >= 1 && maxBytes >= 1 && forall b <- ws :: |b| <= top
    ensures Small(Run(ws, maxBytes, keep), maxBytes, top)
    ensures ws != [] ==> |Content(Run(ws, maxBytes, keep))| < maxBytes + |ws[|ws| - 1]|
  {
    if ws != [] {
      var init, b := ws[..|ws| - 1], ws[|ws| - 1];
      assert b in ws && forall w <- init :: w in ws;
      LogStaysSmall(init, maxBytes, keep, top);
      var fs := Run(init, maxBytes, keep);
      if Full(fs, maxBytes) {
        var m, lost := RunLog(init, maxBytes, keep);
        FullRotates(fs, m, maxBytes, keep, b);
        RotationKeepsSmall(fs, Run(ws, maxBytes, keep), maxBytes, keep, b, top);
      }
    }
  }
}
