/**
 The names of a bulk download's archive entries: a name seen before gets a number before its
 extension.
 */
module ArchiveNames {
  import opened Decimal
  import opened Lists

  /** The name of a file, and whether it could be fetched; one that could not is left out. */
  datatype Fetched = Fetched(name: string, ok: bool)

  function Names(files: seq<Fetched>): seq<string> {
    if files == [] then []
    else Names(files[..|files| - 1]) + if files[|files| - 1].ok then [files[|files| - 1].name] else []
  }

  function Occurrences(names: seq<string>, name: string): nat {
    if names == [] then 0
    else Occurrences(names[..|names| - 1], name) + if names[|names| - 1] == name then 1 else 0
  }

  /** The position of the last dot, or the length if there is none. */
  function LastDot(s: string): (i: nat)
    ensures i <= |s| && (i < |s| ==> s[i] == '.') && (forall j :: i < j < |s| ==> s[j] != '.')
    ensures i == |s| ==> '.' !in s
  {
    if s == "" then 0
    else if s[|s| - 1] == '.' then |s| - 1
    else
      var i := LastDot(s[..|s| - 1]);
      assert forall j :: 0 <= j < |s| - 1 ==> s[j] == s[..|s| - 1][j];
      if i == |s| - 1 then |s| else i
  }

  function Suffix(n: nat): string { " (" + Show(n) + ")" }

  function Numbered(name: string, n: nat): string {
    var i := LastDot(name);
    if i < |name| then name[..i] + Suffix(n) + "." + name[i + 1..] else name + Suffix(n)
  }

  function EntryName(name: string, count: nat): string { if count <= 1 then name else Numbered(name, count - 1) }

  function EntryAt(names: seq<string>, k: nat): string
    requires k < |names|
  {
    EntryName(names[k], Occurrences(names[..k + 1], names[k]))
  }

  function Entries(names: seq<string>): seq<string> { seq(|names|, k requires 0 <= k < |names| => EntryAt(names, k)) }

  lemma {:induction false} EntriesSnoc(names: seq<string>, name: string)
    ensures Entries(names + [name]) == Entries(names) + [EntryName(name, Occurrences(names, name) + 1)]
  {
    var more := names + [name];
    forall k | 0 <= k < |names| ensures EntryAt(more, k) == EntryAt(names, k) {
      assert more[..k + 1] == names[..k + 1];
    }
    assert more[..|names| + 1] == more && more[..|names|] == names;
  }

  ghost predicate Counts(counts: map<string, nat>, names: seq<string>) {
    forall name :: Occurrences(names, name) == if name in counts then counts[name] else 0
  }

  lemma CountsSnoc(counts: map<string, nat>, names: seq<string>, name: string)
    requires Counts(counts, names)
    ensures Counts(counts[name := Occurrences(names, name) + 1], names + [name])
  {
    assert (names + [name])[..|names|] == names;
  }

  lemma NamesSnoc(files: seq<Fetched>, i: nat)
    requires i < |files|
    ensures Names(files[..i + 1]) == if files[i].ok then Names(files[..i]) + [files[i].name] else Names(files[..i])
  {
    assert files[..i + 1][..i] == files[..i];
  }

  /** The entry of a name that came `seen` times before: the name itself at first, then with that number
      in parentheses before its last dot, or at its end if there is none. */
  ghost predicate IsEntry(entry: string, name: string, seen: nat) {
    if seen == 0 then entry == name
    else if '.' !in name then entry == name + " (" + Show(seen) + ")"
    else
      exists i :: 0 <= i < |name| && name[i] == '.' && '.' !in name[i + 1..]
        && entry == name[..i] + " (" + Show(seen) + ")." + name[i + 1..]
  }

  lemma EntryIs(name: string, seen: nat)
    ensures IsEntry(EntryName(name, seen + 1), name, seen)
  {
    var i := LastDot(name);
    if i < |name| {
      assert ")" + "." == ").";
      Regrouped(name[..i], " (", Show(seen), ")", ".", name[i + 1..]);
    } else {
      Regrouped(name, " (", Show(seen), ")", "", "");
    }
  }

  lemma Regrouped(a: string, b: string, c: string, d: string, e: string, f: string)
    ensures a + (b + c + d) + e + f == a + b + c + (d + e) + f
    ensures a + (b + c + d) == a + b + c + d
  {
  }

  /** Where a name came before. */
  function Before(names: seq<string>, n: nat, name: string): set<int>
    requires n <= |names|
  {
    set j | 0 <= j < n && names[j] == name
  }

  lemma {:induction false} OccurrencesCount(names: seq<string>, n: nat, name: string)
    requires n <= |names|
    ensures Occurrences(names[..n], name) == |Before(names, n, name)|
  {
    if n > 0 {
      OccurrencesCount(names, n - 1, name);
      assert names[..n][..n - 1] == names[..n - 1];
      if names[n - 1] == name {
        assert Before(names, n, name) == Before(names, n - 1, name) + {n - 1};
      } else {
        assert Before(names, n, name) == Before(names, n - 1, name);
      }
    } else {
      assert names[..0] == [];
    }
  }

  lemma EntriesAre(names: seq<string>, k: nat)
    requires k < |names|
    ensures IsEntry(Entries(names)[k], names[k], |Before(names, k, names[k])|)
  {
    assert names[..k + 1][..k] == names[..k];
    OccurrencesCount(names, k, names[k]);
    EntryIs(names[k], Occurrences(names[..k], names[k]));
  }

  method ArchiveEntries(files: seq<Fetched>) returns (entries: seq<string>)
    ensures entries == Entries(Names(files))
    ensures |entries| == |Names(files)|
    ensures forall k :: 0 <= k < |entries| ==>
      IsEntry(entries[k], Names(files)[k], |set j | 0 <= j < k && Names(files)[j] == Names(files)[k]|)
  {
    entries := [];
    var counts: map<string, nat> := map[];
    ghost var names: seq<string> := [];
    for i := 0 to |files|
      invariant names == Names(files[..i])
      invariant entries == Entries(names)
      invariant Counts(counts, names)
    {
      NamesSnoc(files, i);
      if files[i].ok {
        var base := files[i].name;
        var entry;
        entry, counts := NextEntry(counts, base, names);
        EntriesSnoc(names, base);
        entries, names := entries + [entry], names + [base];
      }
    }
    assert files[..|files|] == files;
    forall k | 0 <= k < |entries|
      ensures IsEntry(entries[k], names[k], |set j | 0 <= j < k && names[j] == names[k]|)
    {
      EntriesAre(names, k);
      assert Before(names, k, names[k]) == set j | 0 <= j < k && names[j] == names[k];
    }
  }

  method NextEntry(counts: map<string, nat>, base: string, ghost names: seq<string>)
    returns (entry: string, counts': map<string, nat>)
    requires Counts(counts, names)
    ensures entry == EntryName(base, Occurrences(names, base) + 1)
    ensures Counts(counts', names + [base])
  {
    CountsSnoc(counts, names, base);
    var count := (if base in counts then counts[base] else 0) + 1;
    counts' := counts[base := count];
    entry := if count == 1 then base else Numbered(base, count - 1);
  }

  // ----- Numbered names never meet -----

  /** The last parenthesis opens the number. */
  lemma {:induction false} NumberAtEnd(a: string, m: nat)
    ensures var s := a + Suffix(m);
      && |s| == |a| + |Show(m)| + 3 && s[|a| + 1] == '(' && (forall j :: |a| + 2 <= j < |s| ==> s[j] != '(')
      && s[..|a|] == a && s[|a| + 2..|s| - 1] == Show(m)
  {
    var s := a + Suffix(m);
    forall j | |a| + 2 <= j < |s| ensures s[j] != '(' {
      if j < |s| - 1 { assert s[j] == Show(m)[j - |a| - 2]; }
    }
  }

  lemma SuffixInjective(a: string, m: nat, b: string, n: nat)
    requires a + Suffix(m) == b + Suffix(n)
    ensures a == b && m == n
  {
    NumberAtEnd(a, m);
    NumberAtEnd(b, n);
    ShowInjectiveIf(m, n);
  }

  lemma ShowInjectiveIf(m: nat, n: nat)
    ensures Show(m) == Show(n) ==> m == n
  {
    if Show(m) == Show(n) { ShowInjective(m, n); }
  }

  /** The last dot of a numbered name is the one before the old extension. */
  lemma {:induction false} NumberedShape(name: string, n: nat)
    ensures var i := LastDot(name);
      var r := Numbered(name, n);
      if i < |name| then
        && LastDot(r) == |name[..i] + Suffix(n)| < |r| && r[..LastDot(r)] == name[..i] + Suffix(n)
        && r[LastDot(r) + 1..] == name[i + 1..]
      else LastDot(r) == |r|
  {
    var i := LastDot(name);
    var r := Numbered(name, n);
    if i < |name| {
      var cut := |name[..i] + Suffix(n)|;
      assert r[cut] == '.';
      assert forall j :: cut < j < |r| ==> r[j] == name[i + 1..][j - cut - 1];
    } else {
      assert forall j :: 0 <= j < |Show(n)| ==> Show(n)[j] != '.';
      assert forall c | c in Suffix(n) :: c != '.';
    }
  }

  lemma AroundDot(name: string, i: nat)
    requires i < |name| && name[i] == '.'
    ensures name == name[..i] + "." + name[i + 1..]
  {
  }

  lemma NumberedInjective(a: string, m: nat, b: string, n: nat)
    requires Numbered(a, m) == Numbered(b, n)
    ensures a == b && m == n
  {
    NumberedShape(a, m);
    NumberedShape(b, n);
    var i, j := LastDot(a), LastDot(b);
    if i < |a| {
      assert a[..i] + Suffix(m) == b[..j] + Suffix(n) && a[i + 1..] == b[j + 1..];
      SuffixInjective(a[..i], m, b[..j], n);
      AroundDot(a, i);
      AroundDot(b, j);
    } else {
      SuffixInjective(a, m, b, n);
    }
  }

  // ----- All entries -----

  predicate IsNumbered(names: seq<string>, k: nat)
    requires k < |names|
  {
    Occurrences(names[..k + 1], names[k]) >= 2
  }

  lemma {:induction false} OccurrencesGrow(names: seq<string>, i: nat, j: nat, name: string)
    requires i <= j <= |names|
    ensures Occurrences(names[..i], name) <= Occurrences(names[..j], name)
    ensures i < j && names[j - 1] == name ==> Occurrences(names[..i], name) < Occurrences(names[..j], name)
    decreases j
  {
    if i < j {
      assert names[..j][..j - 1] == names[..j - 1];
      OccurrencesGrow(names, i, j - 1, name);
    }
  }

  lemma {:induction false} FirstOccurrence(names: seq<string>, name: string) returns (k: nat)
    requires name in names
    ensures k < |names| && names[k] == name && Occurrences(names[..k + 1], name) == 1
  {
    var rest := names[..|names| - 1];
    if name in rest {
      k := FirstOccurrence(rest, name);
      assert names[..k + 1] == rest[..k + 1];
    } else {
      k := |names| - 1;
      assert names[..k + 1] == names;
      NoOccurrence(rest, name);
    }
  }

  lemma {:induction false} NoOccurrence(names: seq<string>, name: string)
    requires name !in names
    ensures Occurrences(names, name) == 0
  {
    if names != [] { NoOccurrence(names[..|names| - 1], name); }
  }

  lemma EntriesDiffer(names: seq<string>, i: nat, j: nat)
    requires i < j < |names|
    requires IsNumbered(names, i) ==> EntryAt(names, i) !in names
    requires IsNumbered(names, j) ==> EntryAt(names, j) !in names
    ensures EntryAt(names, i) != EntryAt(names, j)
  {
    OccurrencesGrow(names, i + 1, j + 1, names[j]);
    OccurrencesGrow(names, 0, i + 1, names[i]);
    var m, n := Occurrences(names[..i + 1], names[i]), Occurrences(names[..j + 1], names[j]);
    assert names[i] in names && names[j] in names;
    if m >= 2 && n >= 2 { NumberedDiffer(names[i], m - 1, names[j], n - 1); }
    NamesDiffer(names[i], m, EntryAt(names, i), names[j], n, EntryAt(names, j), names);
  }

  lemma NumberedDiffer(a: string, m: nat, b: string, n: nat)
    requires a != b || m != n
    ensures Numbered(a, m) != Numbered(b, n)
  {
    if Numbered(a, m) == Numbered(b, n) { NumberedInjective(a, m, b, n); }
  }

  /** Of two entries each keeps its name or gets one that no file has. */
  lemma NamesDiffer(a: string, m: nat, x: string, b: string, n: nat, y: string, names: seq<string>)
    requires a in names && b in names && (a == b ==> m != n && m + n >= 3)
    requires if m >= 2 then x !in names else x == a
    requires if n >= 2 then y !in names else y == b
    requires m >= 2 && n >= 2 ==> x != y
    ensures x != y
  {
  }

  /** The entry names are all different if and only if no file already bears a name that the numbering
      makes up. */
  lemma DistinctIff(names: seq<string>)
    ensures Distinct(Entries(names)) <==>
      forall k | 0 <= k < |names| && IsNumbered(names, k) :: EntryAt(names, k) !in names
  {
    if forall k | 0 <= k < |names| && IsNumbered(names, k) :: EntryAt(names, k) !in names {
      forall i, j | 0 <= i < j < |names| ensures Entries(names)[i] != Entries(names)[j] {
        EntriesDiffer(names, i, j);
      }
    } else {
      var k :| 0 <= k < |names| && IsNumbered(names, k) && EntryAt(names, k) in names;
      var f := FirstOccurrence(names, EntryAt(names, k));
      assert Entries(names)[f] == Entries(names)[k];
      assert f < k || k < f;
    }
  }

  /** Two files of one name and a third that bears the numbered one: the last two entries collide. */
  lemma {:induction false} NumberedNameTaken(name: string)
    ensures var n := Numbered(name, 1); Entries([name, name, n]) == [name, n, n]
  {
    var n := Numbered(name, 1);
    assert |n| > |name|;
    NamedTwice(name);
    EntriesSnoc([name, name], n);
    NoOccurrence([name, name], n);
    assert [name, name] + [n] == [name, name, n] && [name, n] + [n] == [name, n, n];
  }

  lemma {:induction false} NamedTwice(name: string)
    ensures Entries([name, name]) == [name, Numbered(name, 1)]
  {
    EntriesSnoc([], name);
    EntriesSnoc([name], name);
    assert [] + [name] == [name] && [name] + [name] == [name, name];
    assert [name][..0] == [] && Occurrences([name], name) == 1;
  }
}
