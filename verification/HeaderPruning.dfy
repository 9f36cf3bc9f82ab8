/** Expanding a list of include folders: a folder below another of the list is
    left to that one, so that a header is listed once. */
module HeaderPruning {

  // ----- Paths

  function Split(s: string): (r: seq<string>)
    ensures |r| >= 1
  {
    if s == "" then [""]
    else
      var rest := Split(s[1..]);
      if s[0] == '/' then [""] + rest else [[s[0]] + rest[0]] + rest[1..]
  }

  function Join(parts: seq<string>): string
    requires parts != []
  {
    if |parts| == 1 then parts[0] else parts[0] + "/" + Join(parts[1..])
  }

  /** One folder is, by its text, above a file or folder. */
  predicate Above(folder: string, path: string) {
    folder + "/" <= path
  }

  lemma JoinCons(c: char, first: string, rest: seq<string>)
    ensures Join([[c] + first] + rest) == [c] + Join([first] + rest)
  {
    assert ([[c] + first] + rest)[1..] == rest == ([first] + rest)[1..];
  }

  lemma JoinEmptyFirst(rest: seq<string>)
    requires rest != []
    ensures Join([""] + rest) == "/" + Join(rest)
  {
    assert ([""] + rest)[1..] == rest;
  }

  lemma SplitLetter(s: string, i: nat)
    requires s != "" && s[0] != '/' && 1 <= i <= |Split(s)|
    ensures i <= |Split(s[1..])| && Join(Split(s)[..i]) == [s[0]] + Join(Split(s[1..])[..i])
  {
    var rest := Split(s[1..]);
    assert Split(s)[..i] == [[s[0]] + rest[0]] + rest[1..i];
    assert rest[..i] == [rest[0]] + rest[1..i];
    hide Join, Split;
    JoinCons(s[0], rest[0], rest[1..i]);
  }

  lemma SplitSlash(s: string, i: nat)
    requires s != "" && s[0] == '/' && 1 <= i <= |Split(s)|
    ensures i - 1 <= |Split(s[1..])|
    ensures Join(Split(s)[..i]) == if i == 1 then "" else "/" + Join(Split(s[1..])[..i - 1])
  {
    var rest := Split(s[1..]);
    assert Split(s)[..i] == [""] + rest[..i - 1];
    if i == 1 {
      assert [""] + rest[..0] == [""];
    } else {
      hide Join, Split;
      JoinEmptyFirst(rest[..i - 1]);
    }
  }

  /** The first parts of a path, joined, name a folder above it. */
  lemma {:induction false} PartsAreAbove(s: string, i: nat)
    requires 1 <= i < |Split(s)|
    ensures Above(Join(Split(s)[..i]), s)
  {
    assert s == [s[0]] + s[1..];
    if s[0] != '/' {
      SplitLetter(s, i);
      PartsAreAbove(s[1..], i);
    } else {
      SplitSlash(s, i);
      if i > 1 {
        PartsAreAbove(s[1..], i - 1);
      }
    }
  }

  /** Every folder above a path is its first parts, joined. */
  lemma {:induction false} AboveIsParts(s: string, folder: string) returns (i: nat)
    requires Above(folder, s)
    ensures 1 <= i < |Split(s)| && Join(Split(s)[..i]) == folder
    decreases |s|
  {
    assert s == [s[0]] + s[1..];
    if folder == "" {
      i := 1;
      SplitSlash(s, i);
    } else {
      assert folder == [s[0]] + folder[1..] && Above(folder[1..], s[1..]) by {
        assert (folder + "/")[1..] == folder[1..] + "/";
      }
      i := AboveIsParts(s[1..], folder[1..]);
      if s[0] == '/' {
        i := i + 1;
        SplitSlash(s, i);
      } else {
        SplitLetter(s, i);
      }
    }
  }

  // ----- What is expanded

  function Unique(list: seq<string>): seq<string> {
    if list == [] then []
    else
      var n := |list| - 1;
      var before := Unique(list[..n]);
      if list[n] in before then before else before + [list[n]]
  }

  predicate Chosen(folders: seq<string>, folder: string) {
    folder != "." && forall a :: a in folders ==> !Above(a, folder)
  }

  function Choose(folders: seq<string>, n: nat): seq<string>
    requires n <= |folders|
  {
    if n == 0 then []
    else Choose(folders, n - 1) + if Chosen(folders, folders[n - 1]) then [folders[n - 1]] else []
  }

  function Pruned(includes: seq<string>): seq<string> {
    Choose(Unique(includes), |Unique(includes)|)
  }

  /** The header files below a folder. */
  function Glob(files: seq<string>, folder: string): seq<string> {
    if files == [] then []
    else
      var n := |files| - 1;
      Glob(files[..n], folder) + if Above(folder, files[n]) && IsHeader(files[n]) then [files[n]] else []
  }

  predicate IsHeader(file: string) {
    |file| >= 2 && file[|file| - 2..] == ".h"
  }

  function Headers(files: seq<string>, folders: seq<string>): seq<string> {
    if folders == [] then []
    else
      var n := |folders| - 1;
      Headers(files, folders[..n]) + Glob(files, folders[n])
  }

  method GetHeaders(includes: seq<string>, files: seq<string>) returns (result: seq<string>)
    ensures result == Headers(files, Pruned(includes))
  {
    result := [];
    var unique := Unique(includes);
    for n := 0 to |unique|
      invariant result == Headers(files, Choose(unique, n))
    {
      var folder := unique[n];
      assert Choose(unique, n) + [] == Choose(unique, n);
      if folder == "." {
        continue;
      }
      var skip := ShouldSkip(unique, folder);
      if !skip {
        ghost var chosen := Choose(unique, n) + [folder];
        assert chosen[..|chosen| - 1] == Choose(unique, n);
        result := result + Glob(files, folder);
      }
    }
  }

  /** Looks up each beginning of the folder's path. */
  method ShouldSkip(unique: seq<string>, folder: string) returns (skip: bool)
    ensures skip <==> exists a :: a in unique && Above(a, folder)
  {
    var parts := Split(folder);
    skip := false;
    for i := 1 to |parts|
      invariant forall j :: 1 <= j < i ==> Join(parts[..j]) !in unique
    {
      var prefix := Join(parts[..i]);
      if prefix in unique {
        PartsAreAbove(folder, i);
        return true;
      }
    }
    forall a | a in unique ensures !Above(a, folder) {
      if Above(a, folder) {
        var i := AboveIsParts(folder, a);
      }
    }
  }

  // ----- What the expansion lists

  predicate Distinct(list: seq<string>) {
    forall i, j :: 0 <= i < j < |list| ==> list[i] != list[j]
  }

  lemma {:induction false} UniqueIs(list: seq<string>)
    ensures Distinct(Unique(list)) && forall f :: f in Unique(list) <==> f in list
  {
    if list != [] {
      var n := |list| - 1;
      UniqueIs(list[..n]);
      assert list == list[..n] + [list[n]];
    }
  }

  lemma {:induction false} ChooseIs(folders: seq<string>, n: nat)
    requires n <= |folders| && Distinct(folders)
    ensures Distinct(Choose(folders, n))
    ensures forall f :: f in Choose(folders, n) <==> f in folders[..n] && Chosen(folders, f)
  {
    if n > 0 {
      ChooseIs(folders, n - 1);
      assert folders[..n] == folders[..n - 1] + [folders[n - 1]];
      assert folders[n - 1] !in folders[..n - 1];
    }
  }

  lemma PrunedIs(includes: seq<string>)
    ensures Distinct(Pruned(includes))
    ensures forall f :: f in Pruned(includes) <==> f in includes && Chosen(includes, f)
  {
    var u := Unique(includes);
    UniqueIs(includes);
    ChooseIs(u, |u|);
    assert u[..|u|] == u;
    forall f ensures Chosen(u, f) <==> Chosen(includes, f) {}
  }

  /** Where a folder is listed first. */
  function FirstAt(list: seq<string>, f: string): (i: nat)
    requires f in list
    ensures i < |list| && list[i] == f && forall j :: 0 <= j < i ==> list[j] != f
  {
    if list[0] == f then 0 else 1 + FirstAt(list[1..], f)
  }

  predicate InListOrder(list: seq<string>, folders: seq<string>) {
    (forall f :: f in folders ==> f in list)
    && forall i, j :: 0 <= i < j < |folders| ==> FirstAt(list, folders[i]) < FirstAt(list, folders[j])
  }

  lemma FirstIsEarlier(list: seq<string>, n: nat, f: string)
    requires n < |list| && f in list[..n] && list[n] !in list[..n]
    ensures FirstAt(list, f) < FirstAt(list, list[n])
  {
    var k :| 0 <= k < n && list[..n][k] == f;
    assert list[k] == f;
    assert forall i :: 0 <= i < n ==> list[i] in list[..n];
  }

  lemma {:induction false} UniqueOrder(list: seq<string>, n: nat)
    requires n <= |list|
    ensures InListOrder(list, Unique(list[..n]))
  {
    if n > 0 {
      var init, last := list[..n - 1], list[n - 1];
      UniqueOrder(list, n - 1);
      UniqueIs(init);
      assert list[..n][..n - 1] == init;
      hide Distinct, FirstAt, InListOrder;
      if last !in Unique(init) {
        forall f | f in Unique(init) ensures f in list && FirstAt(list, f) < FirstAt(list, last) {
          FirstIsEarlier(list, n - 1, f);
        }
        OneMoreInOrder(list, Unique(init), last);
      }
    }
  }

  lemma {:induction false} ChooseOrder(list: seq<string>, folders: seq<string>, n: nat)
    requires n <= |folders| && InListOrder(list, folders)
    ensures InListOrder(list, Choose(folders, n))
    ensures forall f :: f in Choose(folders, n) ==> f in folders[..n]
  {
    if n > 0 {
      ChooseOrder(list, folders, n - 1);
      var last := folders[n - 1];
      assert folders[..n] == folders[..n - 1] + [last];
      forall f | f in Choose(folders, n - 1) ensures f in list && FirstAt(list, f) < FirstAt(list, last) {
        var i :| 0 <= i < n - 1 && folders[..n - 1][i] == f;
        assert folders[i] == f;
      }
      if Chosen(folders, last) {
        assert last in folders;
        hide Choose;
        OneMoreInOrder(list, Choose(folders, n - 1), last);
      }
    }
  }

  lemma OneMoreInOrder(list: seq<string>, folders: seq<string>, last: string)
    requires InListOrder(list, folders) && last in list
    requires forall f :: f in folders ==> f in list && FirstAt(list, f) < FirstAt(list, last)
    ensures InListOrder(list, folders + [last])
  {
    hide FirstAt;
    var all := folders + [last];
    forall i, j | 0 <= i < j < |all| ensures FirstAt(list, all[i]) < FirstAt(list, all[j]) {
      assert all[i] in folders;
    }
  }

  /** The folders are expanded in the order in which they are first listed. */
  lemma PrunedOrder(includes: seq<string>)
    ensures InListOrder(includes, Pruned(includes))
  {
    assert includes[..|includes|] == includes;
    UniqueOrder(includes, |includes|);
    UniqueIs(includes);
    ChooseOrder(includes, Unique(includes), |Unique(includes)|);
  }

  /** No expanded folder is above another. */
  lemma Antichain(includes: seq<string>, a: string, b: string)
    requires a in Pruned(includes) && b in Pruned(includes)
    ensures !Above(a, b)
  {
    PrunedIs(includes);
  }

  predicate Covered(includes: seq<string>, folder: string) {
    exists a :: a in Pruned(includes) && (a == folder || Above(a, folder))
  }

  /** The root is in the list, and the folder is the root or written as below it. */
  predicate UnderDot(includes: seq<string>, folder: string) {
    "." in includes && (folder == "." || "./" <= folder)
  }

  lemma AboveTrans(a: string, b: string, path: string)
    requires Above(a, b) && b <= path
    ensures Above(a, path)
  {}

  lemma AboveLonger(a: string, b: string)
    requires Above(a, b)
    ensures |a| < |b|
  {}

  lemma {:induction false} CoveredUnlessDot(includes: seq<string>, folder: string)
    requires folder in includes && !UnderDot(includes, folder)
    ensures Covered(includes, folder)
    decreases |folder|
  {
    PrunedIs(includes);
    if !Chosen(includes, folder) {
      var a :| a in includes && Above(a, folder);
      AboveLonger(a, folder);
      assert a == "." || "./" <= a ==> "./" <= folder;
      CoveredUnlessDot(includes, a);
      var b :| b in Pruned(includes) && (b == a || Above(b, a));
      if b != a {
        AboveTrans(b, a, folder);
      }
    }
  }

  lemma DotIsNotCovered(includes: seq<string>, folder: string, a: string)
    requires UnderDot(includes, folder) && (a == folder || Above(a, folder))
    ensures a !in Pruned(includes)
  {
    PrunedIs(includes);
    assert a == "." || "./" <= a by {
      if a != folder {
        AboveLonger(a, folder);
        assert folder[..|a| + 1] == a + "/" && folder[0] == (a + "/")[0];
        if |a| == 1 {
          assert a[0] == folder[0] && a == ".";
        } else if |a| > 1 {
          assert a[..2] == folder[..2];
        }
      }
    }
    assert Above(".", a) || a == ".";
  }

  /** A folder of the list is expanded, by itself or from above, exactly unless
      the root is in the list and the folder is written as below it: the root
      shadows such folders and is then skipped itself. */
  lemma CoveredIff(includes: seq<string>, folder: string)
    requires folder in includes
    ensures Covered(includes, folder) <==> !UnderDot(includes, folder)
  {
    if UnderDot(includes, folder) {
      forall a | a in Pruned(includes) ensures !(a == folder || Above(a, folder)) {
        if a == folder || Above(a, folder) {
          DotIsNotCovered(includes, folder, a);
        }
      }
    } else {
      CoveredUnlessDot(includes, folder);
    }
  }

  /** The root and a folder below it are listed, and nothing is expanded. */
  lemma DotShadows()
    ensures Pruned([".", "./x"]) == []
  {
    var includes := [".", "./x"];
    PrunedIs(includes);
    assert "." in includes && Above(".", "./x");
    assert forall f :: f in Pruned(includes) ==> f == "." || f == "./x";
    if Pruned(includes) != [] {
      HasFirst(Pruned(includes));
    }
  }

  lemma HasFirst(list: seq<string>)
    requires list != []
    ensures list[0] in list
  {}

  // ----- The headers

  lemma {:induction false} GlobIs(files: seq<string>, folder: string)
    requires Distinct(files)
    ensures Distinct(Glob(files, folder))
    ensures forall h :: h in Glob(files, folder) <==> h in files && Above(folder, h) && IsHeader(h)
  {
    if files != [] {
      var n := |files| - 1;
      GlobIs(files[..n], folder);
      assert files == files[..n] + [files[n]];
      assert files[n] !in files[..n];
    }
  }

  lemma {:induction false} HeadersHas(files: seq<string>, folders: seq<string>, h: string)
    requires Distinct(files)
    ensures h in Headers(files, folders) <==> h in files && IsHeader(h) && exists f :: f in folders && Above(f, h)
  {
    if folders != [] {
      var n := |folders| - 1;
      HeadersHas(files, folders[..n], h);
      GlobIs(files, folders[n]);
      assert folders == folders[..n] + [folders[n]];
    }
  }

  /** A header lies below at most one of two different folders of an antichain. */
  lemma OneAbove(a: string, b: string, h: string)
    requires Above(a, h) && Above(b, h) && |a| <= |b|
    ensures a == b || Above(a, b)
  {
    assert a == h[..|a|] && b == h[..|b|];
    if |a| < |b| {
      assert h[..|b|][..|a| + 1] == h[..|a| + 1] == a + "/";
    }
  }

  lemma {:induction false} HeadersDistinct(files: seq<string>, folders: seq<string>)
    requires Distinct(files) && Distinct(folders)
    requires forall a, b :: a in folders && b in folders ==> !Above(a, b)
    ensures Distinct(Headers(files, folders))
  {
    if folders != [] {
      var n := |folders| - 1;
      var before, last := Headers(files, folders[..n]), Glob(files, folders[n]);
      HeadersDistinct(files, folders[..n]);
      GlobIs(files, folders[n]);
      forall h | h in before && h in last ensures false {
        HeadersHas(files, folders[..n], h);
        var f :| f in folders[..n] && Above(f, h);
        assert f in folders && f != folders[n];
        if |f| <= |folders[n]| {
          OneAbove(f, folders[n], h);
        } else {
          OneAbove(folders[n], f, h);
        }
      }
      DistinctParts(before, last);
    }
  }

  lemma DistinctParts(a: seq<string>, b: seq<string>)
    requires Distinct(a) && Distinct(b) && forall x :: x in a ==> x !in b
    ensures Distinct(a + b)
  {
    forall i, j | 0 <= i < j < |a + b| ensures (a + b)[i] != (a + b)[j] {
      if i < |a| <= j {
        assert (a + b)[i] in a && (a + b)[j] in b;
      }
    }
  }

  /** A header file below a folder of the list is listed once, unless every such
      folder is lost below the root; nothing else is listed. */
  lemma HeadersListed(includes: seq<string>, files: seq<string>)
    requires Distinct(files)
    ensures Distinct(Headers(files, Pruned(includes)))
    ensures forall h :: h in Headers(files, Pruned(includes)) <==> Wanted(includes, files, h)
  {
    PrunedIs(includes);
    HeadersDistinct(files, Pruned(includes));
    forall h ensures h in Headers(files, Pruned(includes)) <==> Wanted(includes, files, h) {
      HeadersHas(files, Pruned(includes), h);
      WantedIff(includes, files, h);
    }
  }

  predicate Wanted(includes: seq<string>, files: seq<string>, h: string) {
    h in files && |h| >= 2 && h[|h| - 2..] == ".h"
    && exists f :: f in includes && !UnderDot(includes, f) && Above(f, h)
  }

  lemma WantedIff(includes: seq<string>, files: seq<string>, h: string)
    ensures Wanted(includes, files, h) <==>
            h in files && IsHeader(h) && exists f :: f in Pruned(includes) && Above(f, h)
  {
    PrunedIs(includes);
    if f :| f in includes && !UnderDot(includes, f) && Above(f, h) {
      CoveredUnlessDot(includes, f);
      var a :| a in Pruned(includes) && (a == f || Above(a, f));
      if a != f {
        AboveTrans(a, f, h);
      }
    }
    if f :| f in Pruned(includes) && Above(f, h) {
      CoveredIff(includes, f);
      assert f in includes && Covered(includes, f);
    }
  }
}
