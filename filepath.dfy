/**
  Go's `path/filepath` functions that the resolvers call, with the separator
  fixed to '/': `Clean`, `Join` and `HasPrefix`. `Clean` is purely lexical
  ("Lexical File Names in Plan 9"): it never consults a file system.
 */
module FilePath {
  import opened GoStrings

  predicate IsRooted(p: string) {
    |p| > 0 && p[0] == '/'
  }

  /** One element of a path as `Clean` keeps it: not empty, not ".", no separator. */
  predicate IsKeptElement(seg: string) {
    seg != "" && seg != "." && NoSlash(seg)
  }

  /**
    The elements `Clean` can leave behind: no empty or "." element, and ".."
    only in a leading run of ".." elements of a path that is not rooted.
   */
  predicate Normal(rooted: bool, out: seq<string>) {
    && (forall i :: 0 <= i < |out| ==> IsKeptElement(out[i]))
    && (forall i :: 0 <= i < |out| && out[i] == ".." ==> !rooted)
    && (forall i, j :: 0 <= i < j < |out| && out[j] == ".." ==> out[i] == "..")
  }

  /** How `Clean` treats one more element after those already kept in `out`. */
  function Step(rooted: bool, out: seq<string>, seg: string): seq<string> {
    if seg == "" || seg == "." then out
    else if seg == ".." then
      if |out| > 0 && out[|out| - 1] != ".." then out[..|out| - 1]
      else if rooted then out
      else out + [".."]
    else out + [seg]
  }

  /** `Step` applied to each element of `segs` in turn, starting from `out`. */
  function Normalize(rooted: bool, out: seq<string>, segs: seq<string>): seq<string>
    decreases |segs|
  {
    if segs == [] then out else Normalize(rooted, Step(rooted, out, segs[0]), segs[1..])
  }

  function Render(rooted: bool, out: seq<string>): string {
    if rooted then "/" + JoinSlash(out)
    else if out == [] then "."
    else JoinSlash(out)
  }

  /** `filepath.Clean`. */
  function Clean(p: string): string {
    if p == "" then "."
    else Render(IsRooted(p), Normalize(IsRooted(p), [], Split(p)))
  }

  /** `filepath.Join`: the elements from the first non-empty one on, joined by "/" and cleaned; "" when all are empty. */
  function Join(elems: seq<string>): string {
    if elems == [] then ""
    else if elems[0] != "" then Clean(JoinSlash(elems))
    else Join(elems[1..])
  }

  /** `filepath.HasPrefix` on a '/'-separated system is `strings.HasPrefix`: no regard for element boundaries. */
  predicate PathHasPrefix(p: string, prefix: string) {
    HasPrefix(p, prefix)
  }

  lemma StepNormal(rooted: bool, out: seq<string>, seg: string)
    requires Normal(rooted, out) && NoSlash(seg)
    ensures Normal(rooted, Step(rooted, out, seg))
  {
  }

  /** Whatever the input elements, `Clean` leaves only elements in normal form. */
  lemma {:induction false} NormalizeNormal(rooted: bool, out: seq<string>, segs: seq<string>)
    requires Normal(rooted, out)
    requires forall i :: 0 <= i < |segs| ==> NoSlash(segs[i])
    ensures Normal(rooted, Normalize(rooted, out, segs))
    decreases |segs|
  {
    if segs != [] {
      StepNormal(rooted, out, segs[0]);
      NormalizeNormal(rooted, Step(rooted, out, segs[0]), segs[1..]);
    }
  }

  /** Elements already in normal form pass through `Normalize` unchanged. */
  lemma {:induction false} NormalizeIdentity(rooted: bool, out: seq<string>, segs: seq<string>)
    requires Normal(rooted, out + segs)
    ensures Normalize(rooted, out, segs) == out + segs
    decreases |segs|
  {
    if segs != [] {
      var k := |out|;
      assert (out + segs)[k] == segs[0];
      if segs[0] == ".." && k > 0 {
        assert (out + segs)[k - 1] == out[k - 1];
      }
      assert Step(rooted, out, segs[0]) == out + [segs[0]];
      assert out + [segs[0]] + segs[1..] == out + segs;
      NormalizeIdentity(rooted, out + [segs[0]], segs[1..]);
    }
  }

  /** Normalising a concatenation is normalising its second part after its first. */
  lemma {:induction false} NormalizeConcat(rooted: bool, out: seq<string>, a: seq<string>, b: seq<string>)
    ensures Normalize(rooted, out, a + b) == Normalize(rooted, Normalize(rooted, out, a), b)
    decreases |a|
  {
    if a == [] {
      assert a + b == b;
    } else {
      assert (a + b)[0] == a[0];
      assert (a + b)[1..] == a[1..] + b;
      var out' := Step(rooted, out, a[0]);
      assert Normalize(rooted, out, a + b) == Normalize(rooted, out', a[1..] + b);
      assert Normalize(rooted, out, a) == Normalize(rooted, out', a[1..]);
      NormalizeConcat(rooted, out', a[1..], b);
    }
  }

  /** The elements of a rooted rendering: an empty one before the separator, then `out`. */
  lemma SplitRenderRooted(out: seq<string>)
    requires Normal(true, out)
    ensures Split(Render(true, out)) == if out == [] then ["", ""] else [""] + out
  {
    SplitConcat("", JoinSlash(out));
    assert "" + "/" + JoinSlash(out) == Render(true, out);
    if out != [] {
      SplitJoin(out);
    }
  }

  lemma RoundTripRooted(out: seq<string>)
    requires Normal(true, out)
    ensures Normalize(true, [], Split(Render(true, out))) == out
  {
    SplitRenderRooted(out);
    if out == [] {
      assert Normalize(true, [], ["", ""]) == [];
    } else {
      assert [] + out == out;
      NormalizeIdentity(true, [], out);
      assert Normalize(true, [], [""] + out) == Normalize(true, [], out);
    }
  }

  lemma RoundTripRelative(out: seq<string>)
    requires Normal(false, out) && out != []
    ensures JoinSlash(out) != "" && !IsRooted(JoinSlash(out))
    ensures Normalize(false, [], Split(JoinSlash(out))) == out
  {
    SplitJoin(out);
    JoinSlashStartsWithFirst(out);
    assert JoinSlash(out)[0] == out[0][0];
    assert [] + out == out;
    NormalizeIdentity(false, [], out);
  }

  /** Rendering normal elements and splitting again recovers them, and rootedness. */
  lemma RenderRoundTrip(rooted: bool, out: seq<string>)
    requires Normal(rooted, out)
    ensures Render(rooted, out) != ""
    ensures IsRooted(Render(rooted, out)) == rooted
    ensures Normalize(rooted, [], Split(Render(rooted, out))) == out
  {
    if rooted {
      RoundTripRooted(out);
    } else if out == [] {
      SplitNoSlash(".");
    } else {
      RoundTripRelative(out);
    }
  }

  /** `Clean` is idempotent: a cleaned path is already clean. */
  lemma CleanIdempotent(p: string)
    ensures Clean(Clean(p)) == Clean(p)
  {
    if p == "" {
      assert Split(".") == ["."] by { SplitNoSlash("."); }
    } else {
      var rooted := IsRooted(p);
      var out := Normalize(rooted, [], Split(p));
      NormalizeNormal(rooted, [], Split(p));
      RenderRoundTrip(rooted, out);
    }
  }

  /**
    `Clean` never returns the empty string, keeps a path rooted or not
    rooted, and leaves no ".." element in a rooted path: a cleaned absolute
    path cannot climb above "/".
   */
  lemma CleanRooted(p: string)
    ensures Clean(p) != ""
    ensures IsRooted(Clean(p)) == IsRooted(p)
    ensures IsRooted(p) ==> forall i :: 0 <= i < |Split(Clean(p))| ==> Split(Clean(p))[i] != ".."
  {
    if p != "" {
      var rooted := IsRooted(p);
      var out := Normalize(rooted, [], Split(p));
      NormalizeNormal(rooted, [], Split(p));
      RenderRoundTrip(rooted, out);
      assert Clean(p) == Render(rooted, out);
      if rooted {
        SplitRenderRooted(out);
        forall i | 0 <= i < |Split(Clean(p))| ensures Split(Clean(p))[i] != ".." {
          if i > 0 && out != [] {
            assert Split(Clean(p))[i] == out[i - 1];
          }
        }
      }
    }
  }

  /** Without ".." elements, `Normalize` only adds to the elements already kept. */
  lemma {:induction false} NormalizeExtends(rooted: bool, out: seq<string>, segs: seq<string>)
    requires forall i :: 0 <= i < |segs| ==> segs[i] != ".."
    ensures |Normalize(rooted, out, segs)| >= |out|
    ensures Normalize(rooted, out, segs)[..|out|] == out
    decreases |segs|
  {
    if segs != [] {
      var out' := Step(rooted, out, segs[0]);
      assert |out'| >= |out| && out'[..|out|] == out;
      NormalizeExtends(rooted, out', segs[1..]);
      assert Normalize(rooted, out, segs)[..|out'|][..|out|] == Normalize(rooted, out, segs)[..|out|];
    }
  }

  /** A rooted rendering of more elements begins with the rendering of the first ones. */
  lemma {:induction false} RenderExtends(out: seq<string>, more: seq<string>)
    ensures HasPrefix(Render(true, out + more), Render(true, out))
  {
    if out == [] {
      assert out + more == more;
      PrefixOfConcat("/", JoinSlash(more));
    } else if more == [] {
      assert out + more == out;
      PrefixOfConcat(Render(true, out), "");
    } else {
      var a, b := JoinSlash(out), JoinSlash(more);
      JoinSlashConcat(out, more);
      assert Render(true, out + more) == ("/" + a) + ("/" + b);
      PrefixOfConcat("/" + a, "/" + b);
    }
  }

  /** Cleaning a rooted rendering followed by more elements normalises those after the rendered ones. */
  lemma {:induction false} CleanAfterRooted(out: seq<string>, f: string)
    requires Normal(true, out)
    ensures Clean(Render(true, out) + "/" + f) == Render(true, Normalize(true, out, Split(f)))
  {
    var root := Render(true, out);
    RenderRoundTrip(true, out);
    var p := root + "/" + f;
    assert p[0] == root[0];
    SplitConcat(root, f);
    NormalizeConcat(true, [], Split(root), Split(f));
  }
}
