/** Clean absolute paths as component lists, with the two operations of Go's path/filepath that
    the link handling uses. */
module Paths {

  type Path = seq<string>

  // Components that cleaning leaves alone.
  predicate Plain(p: Path) {
    forall i :: 0 <= i < |p| ==> p[i] != "" && p[i] != "." && p[i] != ".."
  }

  // path.Clean on an absolute path.
  function Clean(p: Path): Path {
    if p == [] then []
    else
      var front := Clean(p[..|p| - 1]);
      var last := p[|p| - 1];
      if last == "" || last == "." then front
      else if last == ".." then (if front == [] then [] else front[..|front| - 1])
      else front + [last]
  }

  function Join(dir: Path, relative: Path): Path {
    Clean(dir + relative)
  }

  function CommonPrefix(a: Path, b: Path): (n: nat)
    ensures n <= |a| && n <= |b| && a[..n] == b[..n]
  {
    if a == [] || b == [] || a[0] != b[0] then 0
    else 1 + CommonPrefix(a[1..], b[1..])
  }

  // filepath.Rel on clean absolute paths: climb to the common ancestor, then descend.
  function Rel(base: Path, target: Path): Path {
    var n := CommonPrefix(base, target);
    var up := seq(|base| - n, _ => "..");
    if up + target[n..] == [] then ["."] else up + target[n..]
  }

  lemma {:induction false} CleanPlain(p: Path, rest: Path)
    requires Plain(rest)
    ensures Clean(p + rest) == Clean(p) + rest
  {
    if rest == [] {
      assert p + rest == p;
    } else {
      var front := rest[..|rest| - 1];
      CleanPlain(p, front);
      assert (p + rest)[..|p + rest| - 1] == p + front;
      assert Clean(p) + rest == Clean(p) + front + [rest[|rest| - 1]];
    }
  }

  lemma {:induction false} CleanClimbs(base: Path, k: nat)
    requires Plain(base) && k <= |base|
    ensures Clean(base + seq(k, _ => "..")) == base[..|base| - k]
  {
    var up := seq(k, _ => "..");
    if k == 0 {
      CleanPlain([], base);
      assert base + up == [] + base && base[..|base|] == base;
    } else {
      CleanClimbs(base, k - 1);
      assert (base + up)[..|base + up| - 1] == base + seq(k - 1, _ => "..");
    }
  }

  lemma CleanDot(base: Path)
    requires Plain(base)
    ensures Clean(base + ["."]) == base
  {
    CleanPlain([], base);
    assert [] + base == base && (base + ["."])[..|base + ["."]| - 1] == base;
  }

  // A relative path computed by Rel leads from the directory back to the target.
  lemma RelLeadsToTarget(base: Path, target: Path)
    requires Plain(base) && Plain(target)
    ensures Join(base, Rel(base, target)) == target
  {
    hide Clean, CommonPrefix;
    var n := CommonPrefix(base, target);
    var up := seq(|base| - n, _ => "..");
    if up + target[n..] == [] {
      assert |base| == n == |target| && base == base[..n] == target[..n] == target;
      CleanDot(base);
    } else {
      CleanClimbs(base, |base| - n);
      CleanPlain(base + up, target[n..]);
      assert base + (up + target[n..]) == (base + up) + target[n..];
      assert base[..n] + target[n..] == target[..n] + target[n..] == target;
    }
  }
}
