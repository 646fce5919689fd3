/** How `collection("produkte").doc(id)` of the Firebase Admin SDK reads a
    document id: as a path relative to the collection, split at "/". Only a
    path with one segment names a document of the collection itself. */
module DocumentPath {

  /** Where a relative path below a collection leads. */
  datatype Target =
    | InCollection(key: string)  // a document of the collection itself
    | Nested                     // a document in a subcollection below it
    | Refused                    // `doc` throws, or the store refuses the id

  /** `s.split("/")`: the pieces between slashes, empty ones included, so
      there is one more piece than there are slashes. */
  function Split(s: string): (r: seq<string>)
    ensures |r| >= 1
  {
    if |s| == 0 then [""]
    else
      var rest := Split(s[1..]);
      if s[0] == '/' then [""] + rest else [[s[0]] + rest[0]] + rest[1..]
  }

  /** The non-empty pieces, in order. */
  function NonEmpty(ps: seq<string>): seq<string> {
    if |ps| == 0 then [] else (if ps[0] == "" then [] else [ps[0]]) + NonEmpty(ps[1..])
  }

  /** The segments of a relative path. Empty pieces, from a leading,
      trailing or doubled "/", are dropped, as the SDK's path splitting
      drops them. */
  function Segments(s: string): seq<string> {
    NonEmpty(Split(s))
  }

  /** "//" somewhere in the path, which `doc` rejects outright. */
  predicate HasDoubleSlash(s: string) {
    exists i :: 0 <= i < |s| - 1 && s[i] == '/' && s[i + 1] == '/'
  }

  /** Firestore refuses "." and ".." and the reserved ids matching `__.*__`
      as path segments. */
  predicate AllowedSegment(seg: string) {
    && seg != "."
    && seg != ".."
    && !(|seg| >= 4 && seg[..2] == "__" && seg[|seg| - 2..] == "__")
  }

  /** The document `collection(c).doc(id)` points at. Appended to the
      one-segment collection path, the segments name a document only when
      their number is odd; one segment is a document of the collection. */
  function Resolve(id: string): (t: Target)
    ensures HasDoubleSlash(id) || |Segments(id)| % 2 == 0 ==> t.Refused?
    ensures t.InCollection? ==> Segments(id) == [t.key] && AllowedSegment(t.key)
    ensures t.Nested? ==> |Segments(id)| >= 3
    ensures t.Nested? ==> forall k :: 0 <= k < |Segments(id)| ==> AllowedSegment(Segments(id)[k])
  {
    var segs := Segments(id);
    if HasDoubleSlash(id) || |segs| % 2 == 0 then Refused
    else if exists k :: 0 <= k < |segs| && !AllowedSegment(segs[k]) then Refused
    else if |segs| == 1 then InCollection(segs[0])
    else Nested
  }

  /** Dropping empty pieces distributes over concatenation. */
  lemma {:induction false} NonEmptyAppend(p: seq<string>, q: seq<string>)
    ensures NonEmpty(p + q) == NonEmpty(p) + NonEmpty(q)
  {
    if |p| > 0 {
      assert (p + q)[1..] == p[1..] + q;
      NonEmptyAppend(p[1..], q);
    } else {
      assert p + q == q;
    }
  }

  /** A slash-free string is a single piece. */
  lemma {:induction false} SplitPlain(s: string)
    requires '/' !in s
    ensures Split(s) == [s]
  {
    if |s| > 0 {
      assert '/' !in s[1..] by {
        forall k | 0 <= k < |s[1..]|
          ensures s[1..][k] != '/'
        {
          assert s[1..][k] == s[k + 1];
          assert s[k + 1] in s;
        }
      }
      SplitPlain(s[1..]);
      assert s[0] in s;
      assert [s[0]] + s[1..] == s;
    }
  }

  /** A non-empty slash-free string is its only segment. */
  lemma SegmentsPlain(s: string)
    requires s != "" && '/' !in s
    ensures Segments(s) == [s]
  {
    SplitPlain(s);
    assert [s][1..] == [];
    assert NonEmpty([s]) == [s] + NonEmpty([]);
  }

  /** Splitting at an added "/" puts the pieces of `a` before those of
      `b`. */
  lemma {:induction false} SplitJoin(a: string, b: string)
    ensures Split(a + "/" + b) == Split(a) + Split(b)
    decreases |a|
  {
    var s := a + "/" + b;
    if |a| == 0 {
      assert s[0] == '/' && s[1..] == b;
    } else {
      assert s[0] == a[0] && s[1..] == a[1..] + "/" + b;
      SplitJoin(a[1..], b);
    }
  }

  /** Splitting at a "/" splits the segments: the segments of
      `a + "/" + b` are those of `a` followed by those of `b`. With the
      slash-free case this fixes `Segments` completely. */
  lemma SegmentsJoin(a: string, b: string)
    ensures Segments(a + "/" + b) == Segments(a) + Segments(b)
  {
    SplitJoin(a, b);
    NonEmptyAppend(Split(a), Split(b));
  }

  /** Every segment is a non-empty run of characters other than "/". */
  lemma {:induction false} SegmentsAreSlashFree(s: string)
    ensures forall k :: 0 <= k < |Segments(s)| ==> Segments(s)[k] != "" && '/' !in Segments(s)[k]
  {
    SplitIsSlashFree(s);
    NonEmptyKeepsPieces(Split(s));
  }

  lemma {:induction false} SplitIsSlashFree(s: string)
    ensures forall k :: 0 <= k < |Split(s)| ==> '/' !in Split(s)[k]
  {
    if |s| > 0 {
      SplitIsSlashFree(s[1..]);
      var rest := Split(s[1..]);
      if s[0] != '/' {
        assert '/' !in [s[0]] + rest[0];
      }
    }
  }

  lemma {:induction false} NonEmptyKeepsPieces(ps: seq<string>)
    ensures forall k :: 0 <= k < |NonEmpty(ps)| ==> NonEmpty(ps)[k] != "" && NonEmpty(ps)[k] in ps
  {
    if |ps| > 0 {
      NonEmptyKeepsPieces(ps[1..]);
      var head: seq<string> := if ps[0] == "" then [] else [ps[0]];
      forall k | 0 <= k < |NonEmpty(ps)|
        ensures NonEmpty(ps)[k] != "" && NonEmpty(ps)[k] in ps
      {
        if k >= |head| {
          assert NonEmpty(ps)[k] == NonEmpty(ps[1..])[k - |head|];
          assert NonEmpty(ps)[k] in ps[1..];
        }
      }
    }
  }

  /** No "//" in `x + "/" + p` when `x` is a non-empty slash-free segment
      and `p` starts with something other than "/" and has no "//". */
  lemma PrefixKeepsSingleSlashes(x: string, p: string)
    requires x != "" && '/' !in x
    requires p != "" && p[0] != '/' && !HasDoubleSlash(p)
    ensures !HasDoubleSlash(x + "/" + p)
  {
    var s := x + "/" + p;
    forall i | 0 <= i < |s| - 1 && s[i] == '/'
      ensures s[i + 1] != '/'
    {
      if i == |x| {
        assert s[i + 1] == p[0];
      } else if i > |x| {
        assert s[i] == p[i - |x| - 1] && s[i + 1] == p[i - |x|];
      }
    }
  }

  /** An ordinary id, without "/" and not a refused name, points at the
      document of that name in the collection. */
  lemma PlainIdResolvesToItself(id: string)
    requires id != "" && '/' !in id && AllowedSegment(id)
    ensures Resolve(id) == InCollection(id)
  {
    SegmentsPlain(id);
    assert !HasDoubleSlash(id) by {
      forall i | 0 <= i < |id| - 1
        ensures id[i] != '/'
      {
        assert id[i] in id;
      }
    }
  }

  /** A segment added in front of a path flips the parity of its segment
      count, and two added segments keep it: "a/b" names a collection, so
      `doc` refuses it, while "a/b/c" names a document one level down. */
  lemma OneMoreSegmentFlipsTarget(x: string, p: string)
    requires x != "" && '/' !in x && AllowedSegment(x)
    requires p != "" && p[0] != '/' && !HasDoubleSlash(p)
    requires Resolve(p).InCollection?
    ensures Resolve(x + "/" + p) == Refused
  {
    SegmentsPlain(x);
    SegmentsJoin(x, p);
    PrefixKeepsSingleSlashes(x, p);
  }

  /** Two more segments in front of a document of the collection lead to a
      document in a subcollection. */
  lemma TwoMoreSegmentsNest(x: string, y: string, p: string)
    requires x != "" && '/' !in x && AllowedSegment(x)
    requires y != "" && '/' !in y && AllowedSegment(y)
    requires p != "" && p[0] != '/' && !HasDoubleSlash(p)
    requires Resolve(p).InCollection?
    ensures Resolve(x + "/" + (y + "/" + p)) == Nested
  {
    var q := y + "/" + p;
    var key := Resolve(p).key;
    assert Segments(q) == [y, key] && !HasDoubleSlash(q) by {
      SegmentsPlain(y);
      SegmentsJoin(y, p);
      PrefixKeepsSingleSlashes(y, p);
    }
    var s := x + "/" + q;
    assert Segments(s) == [x, y, key] && !HasDoubleSlash(s) by {
      assert q[0] == y[0];
      SegmentsPlain(x);
      SegmentsJoin(x, q);
      PrefixKeepsSingleSlashes(x, q);
    }
    NestedWhenOddAndAllowed(s);
  }

  lemma NestedWhenOddAndAllowed(s: string)
    requires !HasDoubleSlash(s) && |Segments(s)| % 2 == 1 && |Segments(s)| > 1
    requires forall k :: 0 <= k < |Segments(s)| ==> AllowedSegment(Segments(s)[k])
    ensures Resolve(s) == Nested
  {
  }

  /** "a/b" names a subcollection and is refused; "a/b/c" names a document
      below the collection. */
  lemma SlashIdExamples()
    ensures Resolve("a/b") == Refused
    ensures Resolve("a/b/c") == Nested
  {
    assert Resolve("a/b") == Refused by {
      PlainIdResolvesToItself("b");
      OneMoreSegmentFlipsTarget("a", "b");
      assert "a/b" == "a" + "/" + "b";
    }
    PlainIdResolvesToItself("c");
    TwoMoreSegmentsNest("a", "b", "c");
    assert "a/b/c" == "a" + "/" + ("b" + "/" + "c");
  }

  /** A trailing "/" is dropped, while "." and "a//b" are refused. */
  lemma EdgeIdExamples()
    ensures Resolve("a/") == InCollection("a")
    ensures Resolve(".") == Refused
    ensures Resolve("a//b") == Refused
  {
    assert Resolve("a/") == InCollection("a") by {
      assert "a/" == "a" + "/" + "";
      SegmentsJoin("a", "");
      SegmentsPlain("a");
      assert !HasDoubleSlash("a/");
    }
    assert Resolve(".") == Refused by {
      SegmentsPlain(".");
    }
    assert "a//b"[1] == '/' && "a//b"[2] == '/';
  }
}
