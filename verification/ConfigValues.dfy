/** Configuration values, and their equality that ignores ASCII case. */
module ConfigValues {

  /** A float is its bits: that is what equality compares. */
  datatype Value = Null | Bool(b: bool) | Int(i: int) | Float(bits: nat) | Str(s: string)

  function Lower(c: char): char {
    if 'A' <= c <= 'Z' then c - 'A' + 'a' else c
  }

  predicate EqIgnoreAsciiCase(a: string, b: string) {
    |a| == |b| && forall i :: 0 <= i < |a| ==> Lower(a[i]) == Lower(b[i])
  }

  predicate Same(a: Value, b: Value) {
    match (a, b)
    case (Null, Null) => true
    case (Bool(x), Bool(y)) => x == y
    case (Int(x), Int(y)) => x == y
    case (Float(x), Float(y)) => x == y
    case (Str(x), Str(y)) => EqIgnoreAsciiCase(x, y)
    case _ => false
  }

  function LowerAll(s: string): (r: string)
    ensures |r| == |s| && forall i :: 0 <= i < |s| ==> r[i] == Lower(s[i])
  {
    seq(|s|, i requires 0 <= i < |s| => Lower(s[i]))
  }

  /** What all the same values have in common: tables are keyed by it. */
  function KeyOf(v: Value): Value {
    if v.Str? then Str(LowerAll(v.s)) else v
  }

  /** Looking up by key is looking up by the case-insensitive equality. */
  lemma SameKeys(a: Value, b: Value)
    ensures Same(a, b) <==> KeyOf(a) == KeyOf(b)
  {
    if a.Str? && b.Str? {
      if LowerAll(a.s) == LowerAll(b.s) {
        forall i | 0 <= i < |a.s| ensures Lower(a.s[i]) == Lower(b.s[i]) {
          assert LowerAll(a.s)[i] == LowerAll(b.s)[i];
        }
      }
    }
  }

  function KeysOf(path: seq<Value>): (r: seq<Value>)
    ensures |r| == |path|
  {
    seq(|path|, i requires 0 <= i < |path| => KeyOf(path[i]))
  }

  /** Paths are compared segment by segment. */
  predicate SamePath(a: seq<Value>, b: seq<Value>) {
    |a| == |b| && forall i :: 0 <= i < |a| ==> Same(a[i], b[i])
  }

  lemma SamePathKeys(a: seq<Value>, b: seq<Value>)
    ensures KeysOf(a) == KeysOf(b) <==> SamePath(a, b)
  {
    if KeysOf(a) == KeysOf(b) {
      assert |a| == |b|;
      forall i | 0 <= i < |a| ensures Same(a[i], b[i]) {
        assert KeysOf(a)[i] == KeysOf(b)[i];
        SameKeys(a[i], b[i]);
      }
    }
    if SamePath(a, b) {
      forall i | 0 <= i < |a| ensures KeysOf(a)[i] == KeysOf(b)[i] {
        SameKeys(a[i], b[i]);
      }
    }
  }
}
