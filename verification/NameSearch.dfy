/**
 The file-name filter binds `%x%` for a pattern match. It finds the names that contain `x` exactly
 when `x` has no character that patterns treat specially.
 */
module NameSearch {
  import opened Ascii
  import opened Sql

  predicate OccursAt(s: string, x: string, i: nat) {
    i + |x| <= |s| && forall k :: 0 <= k < |x| ==> LowerChar(s[i + k]) == LowerChar(x[k])
  }

  /** `s` contains `x`, ASCII case ignored. */
  ghost predicate ContainsText(s: string, x: string) { exists i: nat :: OccursAt(s, x, i) }

  predicate Special(c: char) { c == '%' || c == '_' || c == '\\' }

  predicate Clean(x: string) { forall i :: 0 <= i < |x| ==> !Special(x[i]) }

  lemma {:induction false} AnyTail(s: string)
    ensures ILike(s, "%")
  {
    assert "%"[1..] == "";
    if s != "" { AnyTail(s[1..]); }
  }

  lemma OccursInTail(s: string, x: string, i: nat)
    requires s != ""
    ensures OccursAt(s, x, i + 1) <==> OccursAt(s[1..], x, i)
  {
    if OccursAt(s[1..], x, i) {
      forall k | 0 <= k < |x| ensures LowerChar(s[i + 1 + k]) == LowerChar(x[k]) {
        assert s[1..][i + k] == s[i + 1 + k];
      }
    }
  }

  lemma OccursFirst(s: string, x: string)
    requires s != "" && x != ""
    ensures OccursAt(s, x, 0) <==> LowerChar(s[0]) == LowerChar(x[0]) && OccursAt(s[1..], x[1..], 0)
  {
    if OccursAt(s, x, 0) {
      forall k | 0 <= k < |x| - 1 ensures LowerChar(s[1..][k]) == LowerChar(x[1..][k]) {
        assert LowerChar(s[0 + (k + 1)]) == LowerChar(x[k + 1]);
      }
    }
    if LowerChar(s[0]) == LowerChar(x[0]) && OccursAt(s[1..], x[1..], 0) {
      forall k | 0 <= k < |x| ensures LowerChar(s[0 + k]) == LowerChar(x[k]) {
        if k > 0 { assert LowerChar(s[1..][0 + (k - 1)]) == LowerChar(x[1..][k - 1]); }
      }
    }
  }

  lemma {:induction false} CleanPrefix(s: string, x: string)
    requires Clean(x)
    ensures ILike(s, x + "%") <==> OccursAt(s, x, 0)
    decreases |x|
  {
    var p := x + "%";
    if x == "" {
      assert p == "%";
      AnyTail(s);
    } else {
      assert p[0] == x[0] && !Special(x[0]);
      assert p[1..] == x[1..] + "%";
      if s != "" {
        CleanPrefix(s[1..], x[1..]);
        OccursFirst(s, x);
      }
    }
  }

  lemma {:induction false} CleanSearch(s: string, x: string)
    requires Clean(x)
    ensures ILike(s, "%" + x + "%") <==> ContainsText(s, x)
    decreases |s|
  {
    assert ("%" + x + "%")[1..] == x + "%";
    CleanPrefix(s, x);
    if s != "" {
      CleanSearch(s[1..], x);
      if ContainsText(s[1..], x) {
        var i: nat :| OccursAt(s[1..], x, i);
        OccursInTail(s, x, i);
      }
    }
    if ContainsText(s, x) && !OccursAt(s, x, 0) {
      var i: nat :| OccursAt(s, x, i);
      OccursInTail(s, x, i - 1);
    }
  }

  /** A shortest name that the pattern accepts. */
  function Shortest(p: string): string {
    if p == "" then ""
    else if p[0] == '%' then Shortest(p[1..])
    else if p[0] == '_' then "a" + Shortest(p[1..])
    else if p[0] == '\\' && |p| > 1 then [p[1]] + Shortest(p[2..])
    else [p[0]] + Shortest(p[1..])
  }

  lemma {:induction false} ShortestMatches(p: string)
    requires p == "" || p[|p| - 1] == '%'
    ensures ILike(Shortest(p), p)
    decreases |p|
  {
    if p != "" {
      if p[0] == '\\' {
        ShortestMatches(p[2..]);
        assert Shortest(p)[1..] == Shortest(p[2..]);
      } else {
        ShortestMatches(p[1..]);
        if p[0] != '%' { assert Shortest(p)[1..] == Shortest(p[1..]); }
      }
    }
  }

  lemma {:induction false} ShortestDiffers(x: string)
    ensures |Shortest(x + "%")| <= |x|
    ensures OccursAt(Shortest(x + "%"), x, 0) ==> Clean(x)
    decreases |x|
  {
    var p := x + "%";
    var w := Shortest(p);
    if x == "" {
      assert p == "%" && p[1..] == "";
    } else if x == "\\" {
      assert p == "\\%" && p[1] == '%' && p[2..] == "";
      assert w[0] == '%';
    } else if x[0] == '\\' {
      assert p[2..] == x[2..] + "%";
      ShortestDiffers(x[2..]);
    } else {
      assert p[1..] == x[1..] + "%";
      ShortestDiffers(x[1..]);
      if OccursAt(w, x, 0) {
        assert LowerChar(w[0 + 0]) == LowerChar(x[0]);
        assert w[1..] == Shortest(x[1..] + "%");
        OccursFirst(w, x);
      }
    }
  }

  lemma NoRoomToShift(s: string, x: string)
    requires |s| <= |x|
    ensures ContainsText(s, x) ==> OccursAt(s, x, 0)
  {
    if ContainsText(s, x) {
      var i: nat :| OccursAt(s, x, i);
      assert i == 0;
    }
  }

  /** The substring promise holds of `x` for every file name if and only if `x` is clean. */
  lemma {:induction false} SubstringSearchIffClean(x: string)
    ensures (forall s: string :: ILike(s, "%" + x + "%") <==> ContainsText(s, x)) <==> Clean(x)
  {
    if Clean(x) {
      forall s: string ensures ILike(s, "%" + x + "%") <==> ContainsText(s, x) { CleanSearch(s, x); }
    } else {
      var s := Shortest(x + "%");
      ShortestDiffers(x);
      ShortestMatches(x + "%");
      assert ("%" + x + "%")[1..] == x + "%";
      assert ILike(s, "%" + x + "%");
      NoRoomToShift(s, x);
    }
  }
}
