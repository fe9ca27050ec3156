/** The dashboard's fabric list (`filteredFabrics` in src/App.tsx): live fabrics of
    the active category whose code contains the search term, ignoring case. */
module Dashboard {
  import opened Types

  /** `toLowerCase` on one character; only the ASCII letters A-Z are mapped. */
  function LowerChar(c: char): char {
    if 'A' <= c <= 'Z' then (c as int + 32) as char else c
  }

  function ToLower(s: string): string {
    seq(|s|, i requires 0 <= i < |s| => LowerChar(s[i]))
  }

  /** Lower-casing leaves no ASCII capital, keeps the length, and is idempotent. */
  lemma {:induction false} ToLowerProperties(s: string)
    ensures |ToLower(s)| == |s|
    ensures forall i :: 0 <= i < |s| ==> !('A' <= ToLower(s)[i] <= 'Z')
    ensures ToLower(ToLower(s)) == ToLower(s)
  {
  }

  /** `sub` starts `s`. */
  predicate StartsWith(s: string, sub: string) {
    |sub| <= |s| && s[..|sub|] == sub
  }

  /** `s.includes(sub)`, scanning the start positions left to right. */
  predicate Includes(s: string, sub: string)
    decreases |s|
  {
    StartsWith(s, sub) || (s != [] && Includes(s[1..], sub))
  }

  /** `sub` occurs in `s` starting at position `i`. */
  predicate OccursAt(s: string, sub: string, i: int) {
    0 <= i <= |s| - |sub| && s[i..i + |sub|] == sub
  }

  /** The scan agrees with the definition: `sub` occurs at some position of `s`. */
  lemma {:induction false} IncludesIff(s: string, sub: string)
    ensures Includes(s, sub) <==> exists i :: OccursAt(s, sub, i)
    decreases |s|
  {
    if StartsWith(s, sub) {
      assert OccursAt(s, sub, 0);
    }
    if s != [] {
      IncludesIff(s[1..], sub);
      if Includes(s[1..], sub) {
        var i :| OccursAt(s[1..], sub, i);
        assert s[1..][i..i + |sub|] == s[i + 1..i + 1 + |sub|];
        assert OccursAt(s, sub, i + 1);
      }
      if exists i :: OccursAt(s, sub, i) {
        var i :| OccursAt(s, sub, i);
        if i > 0 {
          assert s[1..][i - 1..i - 1 + |sub|] == s[i..i + |sub|];
          assert OccursAt(s[1..], sub, i - 1);
        }
      }
    } else if exists i :: OccursAt(s, sub, i) {
      var i :| OccursAt(s, sub, i);
      assert i == 0;
    }
  }

  /** The three chained filters: not deleted, in the active category, code matches. */
  predicate Visible(f: Fabric, category: FabricCategory, searchTerm: string) {
    !f.Deleted() && f.category == category && Includes(ToLower(f.code), ToLower(searchTerm))
  }

  function FilteredFabrics(fs: seq<Fabric>, category: FabricCategory, searchTerm: string): seq<Fabric> {
    if fs == [] then []
    else
      var f := fs[|fs| - 1];
      FilteredFabrics(fs[..|fs| - 1], category, searchTerm) + (if Visible(f, category, searchTerm) then [f] else [])
  }

  /** The list holds exactly the visible fabrics. */
  lemma {:induction false} FilteredFabricsMembers(fs: seq<Fabric>, category: FabricCategory, searchTerm: string)
    ensures forall f :: f in FilteredFabrics(fs, category, searchTerm) <==> f in fs && Visible(f, category, searchTerm)
    decreases |fs|
  {
    if fs != [] {
      var init := fs[..|fs| - 1];
      FilteredFabricsMembers(init, category, searchTerm);
      assert fs == init + [fs[|fs| - 1]];
    }
  }

  /** Filtering keeps the list order: it distributes over concatenation. */
  lemma {:induction false} FilteredFabricsConcat(a: seq<Fabric>, b: seq<Fabric>, category: FabricCategory, searchTerm: string)
    ensures FilteredFabrics(a + b, category, searchTerm)
            == FilteredFabrics(a, category, searchTerm) + FilteredFabrics(b, category, searchTerm)
    decreases |b|
  {
    if b == [] {
      assert a + b == a;
    } else {
      var init := b[..|b| - 1];
      assert (a + b)[..|a + b| - 1] == a + init;
      assert (a + b)[|a + b| - 1] == b[|b| - 1];
      FilteredFabricsConcat(a, init, category, searchTerm);
    }
  }

  /** An empty search term shows every live fabric of the category. */
  lemma {:induction false} EmptySearchShowsCategory(f: Fabric, category: FabricCategory)
    ensures Visible(f, category, "") <==> !f.Deleted() && f.category == category
  {
    assert ToLower("") == "";
    assert StartsWith(ToLower(f.code), "");
  }

  /** The search ignores the case of the term. */
  lemma {:induction false} SearchIgnoresCase(f: Fabric, category: FabricCategory, searchTerm: string)
    ensures Visible(f, category, ToLower(searchTerm)) == Visible(f, category, searchTerm)
  {
    ToLowerProperties(searchTerm);
  }
}
