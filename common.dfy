/** Vocabulary shared by the whole model: optional values (Python's `None`),
    bytes, process identifiers and duplicate-free sequences. */
module Common {

  /** A Python value that may be `None`. */
  datatype Option<+T> = None | Some(value: T)

  /** One element of a Python `bytes` object. */
  type byte = x: int | 0 <= x < 256

  /** A process identifier as `subprocess.Popen` hands it out: always positive,
      so always truthy in a Python `if pid:` test. */
  type Pid = p: int | p > 0 witness 1

  /** No element occurs twice. */
  predicate NoDup<T(==)>(s: seq<T>) {
    forall i, j :: 0 <= i < j < |s| ==> s[i] != s[j]
  }

  /** Python truthiness of an optional string: neither `None` nor `""`. */
  predicate Truthy(s: Option<string>) {
    s.Some? && s.value != ""
  }

  /** `os.path.join(a, b)` on POSIX for two components: an absolute `b`
      replaces `a`, otherwise `b` is appended after a separator unless `a` is
      empty or already ends in one. */
  function Join(a: string, b: string): (p: string)
    ensures |b| > 0 && b[0] == '/' ==> p == b
    ensures a != [] && a[|a| - 1] != '/' && (b == [] || b[0] != '/') ==> p == a + "/" + b
    ensures |b| <= |p| && p[|p| - |b|..] == b
  {
    if |b| > 0 && b[0] == '/' then b
    else if a == [] || a[|a| - 1] == '/' then a + b
    else a + "/" + b
  }
}
