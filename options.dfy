/** Nullable values and the "drop the nulls" step that the aggregation applies
    to every list of parsed entries (a LINQ `Where(x => x != null)`). */
module Options {

  /** A value that may be absent: a C# reference that may be null, or a JSON
      property that may be missing. */
  datatype Option<+T> = None | Some(value: T)

  /** The present values of `s`, in their order in `s`. */
  function Somes<T>(s: seq<Option<T>>): seq<T>
    decreases |s|
  {
    if s == [] then []
    else Somes(s[..|s| - 1]) + (if s[|s| - 1].Some? then [s[|s| - 1].value] else [])
  }

  /** The positions of `s` that hold a value. */
  function PresentIndices<T>(s: seq<Option<T>>): set<nat>
  {
    set i: nat | i < |s| && s[i].Some?
  }

  lemma {:induction false} SomesAppend<T>(a: seq<Option<T>>, b: seq<Option<T>>)
    ensures Somes(a + b) == Somes(a) + Somes(b)
    decreases |b|
  {
    if b == [] {
      assert a + b == a;
    } else {
      var b' := b[..|b| - 1];
      assert (a + b)[..|a + b| - 1] == a + b';
      SomesAppend(a, b');
    }
  }

  /** A value survives exactly when some entry holds it. */
  lemma {:induction false} SomesMembership<T>(s: seq<Option<T>>, x: T)
    ensures x in Somes(s) <==> exists i :: 0 <= i < |s| && s[i] == Some(x)
    decreases |s|
  {
    if s != [] {
      var s' := s[..|s| - 1];
      SomesMembership(s', x);
      if x in Somes(s') {
        var i :| 0 <= i < |s'| && s'[i] == Some(x);
        assert s[i] == Some(x);
      }
      if exists i :: 0 <= i < |s| && s[i] == Some(x) {
        var i :| 0 <= i < |s| && s[i] == Some(x);
        if i < |s'| {
          assert s'[i] == Some(x);
        }
      }
    }
  }

  /** Nothing is merged or duplicated: one result per present entry. */
  lemma {:induction false} SomesCount<T>(s: seq<Option<T>>)
    ensures |Somes(s)| == |PresentIndices(s)|
    decreases |s|
  {
    if s == [] {
      assert PresentIndices(s) == {};
    } else {
      var s' := s[..|s| - 1];
      SomesCount(s');
      var last := |s| - 1;
      if s[last].Some? {
        assert PresentIndices(s) == PresentIndices(s') + {last};
      } else {
        assert PresentIndices(s) == PresentIndices(s');
      }
    }
  }

  /** The value of entry `i` sits right after the values of the entries before
      it, so the surviving values keep their relative order. */
  lemma {:induction false} SomesPosition<T>(s: seq<Option<T>>, i: nat)
    requires i < |s| && s[i].Some?
    ensures |Somes(s[..i])| < |Somes(s)|
    ensures Somes(s)[|Somes(s[..i])|] == s[i].value
  {
    assert s == s[..i] + ([s[i]] + s[i + 1..]);
    SomesAppend(s[..i], [s[i]] + s[i + 1..]);
    SomesAppend([s[i]], s[i + 1..]);
    assert [s[i]][..0] == [];
  }
}
