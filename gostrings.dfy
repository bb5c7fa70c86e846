/**
  The parts of Go's `strings` package that the model relies on, for the
  separator "/": `strings.Split`, `strings.Join` and `strings.HasPrefix`.
 */
module GoStrings {

  /** True when `s` contains no '/' separator. */
  predicate NoSlash(s: string) {
    '/' !in s
  }

  /** `strings.Split(s, "/")`: the pieces between separators, one more than there are separators. */
  function Split(s: string): (r: seq<string>)
    ensures |r| >= 1
    ensures forall i :: 0 <= i < |r| ==> NoSlash(r[i])
  {
    if s == [] then [""]
    else if s[0] == '/' then [""] + Split(s[1..])
    else
      var t := Split(s[1..]);
      [[s[0]] + t[0]] + t[1..]
  }

  /** `strings.Join(xs, "/")`. */
  function JoinSlash(xs: seq<string>): string {
    if |xs| == 0 then ""
    else if |xs| == 1 then xs[0]
    else xs[0] + "/" + JoinSlash(xs[1..])
  }

  /** `strings.HasPrefix(s, prefix)`: a plain character-wise prefix test. */
  predicate HasPrefix(s: string, prefix: string) {
    |prefix| <= |s| && s[..|prefix|] == prefix
  }

  /** A string without separators splits into itself alone. */
  lemma {:induction false} SplitNoSlash(s: string)
    requires NoSlash(s)
    ensures Split(s) == [s]
  {
    if s != [] {
      assert s[0] in s;
      assert NoSlash(s[1..]) by {
        forall k | 0 <= k < |s[1..]| ensures s[1..][k] != '/' {
          assert s[1..][k] == s[k + 1];
        }
      }
      SplitNoSlash(s[1..]);
      assert s == [s[0]] + s[1..];
    }
  }

  /** Splitting `a + "/" + b` splits `a` and `b` separately. */
  lemma {:induction false} SplitConcat(a: string, b: string)
    ensures Split(a + "/" + b) == Split(a) + Split(b)
  {
    if a == [] {
      assert a + "/" + b == "/" + b;
      assert ("/" + b)[1..] == b;
    } else {
      var s := a + "/" + b;
      assert s[0] == a[0];
      assert s[1..] == a[1..] + "/" + b;
      SplitConcat(a[1..], b);
    }
  }

  /** Joining separator-free pieces and splitting again gives back the pieces. */
  lemma {:induction false} SplitJoin(xs: seq<string>)
    requires |xs| >= 1
    requires forall i :: 0 <= i < |xs| ==> NoSlash(xs[i])
    ensures Split(JoinSlash(xs)) == xs
  {
    if |xs| == 1 {
      SplitNoSlash(xs[0]);
    } else {
      SplitJoin(xs[1..]);
      SplitConcat(xs[0], JoinSlash(xs[1..]));
      SplitNoSlash(xs[0]);
      assert xs == [xs[0]] + xs[1..];
    }
  }

  /** The joined string begins with the first piece. */
  lemma {:induction false} JoinSlashStartsWithFirst(xs: seq<string>)
    requires |xs| >= 1
    ensures HasPrefix(JoinSlash(xs), xs[0])
  {
    if |xs| > 1 {
      var j := JoinSlash(xs);
      assert j == xs[0] + ("/" + JoinSlash(xs[1..]));
      assert j[..|xs[0]|] == xs[0];
    }
  }

  /** Joining two non-empty lists puts one separator between their joins. */
  lemma {:induction false} JoinSlashConcat(xs: seq<string>, ys: seq<string>)
    requires |xs| >= 1 && |ys| >= 1
    ensures JoinSlash(xs + ys) == JoinSlash(xs) + "/" + JoinSlash(ys)
  {
    if |xs| == 1 {
      assert (xs + ys)[1..] == ys;
    } else {
      assert (xs + ys)[1..] == xs[1..] + ys;
      JoinSlashConcat(xs[1..], ys);
    }
  }

  lemma PrefixOfConcat(x: string, y: string)
    ensures HasPrefix(x + y, x)
  {
    assert (x + y)[..|x|] == x;
  }
}
