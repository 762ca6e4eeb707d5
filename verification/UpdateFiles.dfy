// Files touched by an over-the-air update, as a log of operations, and what the
// log says about the two final paths.
module UpdateFiles {

  type Bytes = seq<bv8>

  datatype Component = App | System

  // The file an update is finally stored under, and its ".unverified" companion.
  datatype Path = Final(component: Component) | Unverified(component: Component)

  type Files = map<Path, Bytes>

  // Rename carries the hash the content was compared with just before.
  datatype Op =
    | Remove(path: Path)
    | Create(path: Path)
    | Append(path: Path, data: Bytes)
    | Rename(src: Path, dst: Path, expected: string)

  function Apply(fs: Files, op: Op): Files {
    match op
    case Remove(p) => fs - {p}
    case Create(p) => fs[p := []]
    case Append(p, data) => if p in fs then fs[p := fs[p] + data] else fs
    case Rename(p, q, _) => if p in fs then (fs - {p})[q := fs[p]] else fs
  }

  // One operation of an update and the files it left.
  datatype Moment = Moment(op: Op, after: Files)

  // The files after the first k operations.
  function FilesAt(fs: Files, log: seq<Moment>, k: nat): Files
    requires k <= |log|
  {
    if k == 0 then fs else log[k - 1].after
  }

  // Only a rename of a file whose hash was the expected one puts anything at a
  // final path.
  predicate SafeOp(fs: Files, op: Op, sha: Bytes -> string) {
    match op
    case Remove(_) => true
    case Create(p) => p.Unverified?
    case Append(p, _) => p.Unverified?
    case Rename(p, q, expected) => p.Unverified? && q.Final? && p in fs && sha(fs[p]) == expected
  }

  predicate MomentOk(fs: Files, log: seq<Moment>, i: nat, sha: Bytes -> string)
    requires i < |log|
  {
    var before := FilesAt(fs, log, i);
    SafeOp(before, log[i].op, sha) && log[i].after == Apply(before, log[i].op)
  }

  // Every operation was a safe one, and the files are what the operations made.
  ghost predicate Safe(fs: Files, log: seq<Moment>, sha: Bytes -> string) {
    forall i :: 0 <= i < |log| ==> MomentOk(fs, log, i, sha)
  }

  predicate Touches(op: Op, p: Path) {
    match op
    case Remove(q) => q == p
    case Create(q) => q == p
    case Append(q, _) => q == p
    case Rename(q, r, _) => q == p || r == p
  }

  lemma LogOne(fs: Files, log: seq<Moment>, op: Op, sha: Bytes -> string)
    requires Safe(fs, log, sha) && SafeOp(FilesAt(fs, log, |log|), op, sha)
    ensures var more := log + [Moment(op, Apply(FilesAt(fs, log, |log|), op))];
            Safe(fs, more, sha) && FilesAt(fs, more, |more|) == Apply(FilesAt(fs, log, |log|), op)
  {
    var more := log + [Moment(op, Apply(FilesAt(fs, log, |log|), op))];
    forall i | 0 <= i < |more| ensures MomentOk(fs, more, i, sha) {
      assert FilesAt(fs, more, i) == FilesAt(fs, log, i);
      if i < |log| { assert MomentOk(fs, log, i, sha); }
    }
  }

  // Where the content of a file came from, after k operations: it is still the
  // content from the start, or some rename brought it after its hash had matched.
  ghost predicate Vouched(fs: Files, log: seq<Moment>, k: nat, p: Path, content: Bytes, sha: Bytes -> string)
    requires k <= |log|
  {
    || (p in fs && content == fs[p] && forall j :: 0 <= j < k ==> !Touches(log[j].op, p))
    || exists j :: 0 <= j < k && log[j].op.Rename? && log[j].op.dst == p && sha(content) == log[j].op.expected
  }

  // At every moment of every run, whatever stands at a final path was there
  // untouched from the start or was put there by a rename after a hash match.
  lemma {:induction false} FinalPathsVouched(fs: Files, log: seq<Moment>, k: nat, p: Path, sha: Bytes -> string)
    requires Safe(fs, log, sha) && k <= |log| && p.Final? && p in FilesAt(fs, log, k)
    ensures Vouched(fs, log, k, p, FilesAt(fs, log, k)[p], sha)
  {
    if k == 0 {
    } else {
      assert MomentOk(fs, log, k - 1, sha);
      if Touches(log[k - 1].op, p) {
        assert log[k - 1].op.Rename?;
      } else {
        FinalPathsVouched(fs, log, k - 1, p, sha);
      }
    }
  }

  // The files of the other component.
  function Others(fs: Files, c: Component): Files {
    map p | p in fs && p.component != c :: fs[p]
  }

  predicate Concerns(op: Op, c: Component) {
    match op
    case Remove(p) => p.component == c
    case Create(p) => p.component == c
    case Append(p, _) => p.component == c
    case Rename(p, q, _) => p.component == c && q.component == c
  }

  lemma OthersKept(fs: Files, op: Op, c: Component)
    requires Concerns(op, c)
    ensures Others(Apply(fs, op), c) == Others(fs, c)
  {}

  lemma OthersDecide(a: Files, b: Files, c: Component, p: Path)
    requires Others(a, c) == Others(b, c) && p.component != c
    ensures (p in a <==> p in b) && (p in a ==> a[p] == b[p])
  {
    assert p in a <==> p in Others(a, c);
    assert p in b <==> p in Others(b, c);
  }
}
