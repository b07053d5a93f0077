/** The e-mail template choices: each `.txt` template found is offered as
    its path below the `templates/` directory, labelled with its file name
    and whether an `.html` counterpart sits next to it. Listing directories
    and testing whether a file exists are left to the caller: the paths
    come as a sequence and the existence test as a predicate. */
module Templates {
  import opened Wrappers
  import opened Strings
  import opened Entities

  /** The directory segment the template references are taken after. */
  const Sep := "templates/"

  /** `os.path.basename`: the text after the last '/'. */
  function Basename(p: string): (r: string)
    ensures IsSuffix(r, p)
    ensures forall j :: 0 <= j < |r| ==> r[j] != '/'
    ensures |r| < |p| ==> p[|p| - |r| - 1] == '/'
  {
    match LastIndexOf(p, '/')
    case None => p
    case Some(i) => p[i + 1..]
  }

  /** Some character before position `d` of `s` is not a dot. */
  predicate NonDotBefore(s: string, d: nat)
    requires d <= |s|
  {
    exists j :: 0 <= j < d && s[j] != '.'
  }

  /** `os.path.splitext` of a file name without '/': the extension starts at
      the last dot, unless only dots precede it (a hidden file such as
      `.profile` has no extension). */
  function SplitExt(name: string): (r: (string, string))
    ensures r.0 + r.1 == name
    ensures r.1 != [] ==> r.1[0] == '.' && forall j :: 1 <= j < |r.1| ==> r.1[j] != '.'
    ensures r.1 != [] ==> NonDotBefore(name, |r.0|)
    ensures r.1 == [] ==> match LastIndexOf(name, '.')
                          case None => true
                          case Some(d) => !NonDotBefore(name, d)
  {
    match LastIndexOf(name, '.')
    case None => (name, [])
    case Some(d) =>
      if NonDotBefore(name, d) then
        assert name[..d] + name[d..] == name;
        (name[..d], name[d..])
      else (name, [])
  }

  /** The file name a template is labelled with: its basename without the
      extension. */
  function Stem(p: string): string {
    SplitExt(Basename(p)).0
  }

  /** The path of the `.html` counterpart: every ".txt" in the path becomes
      ".html", as Python's `str.replace` does. */
  function HtmlCounterpart(p: string): string {
    ReplaceAll(p, ".txt", ".html")
  }

  /** The choice label of a template. */
  function Label(name: string, hasHtml: bool): (r: string)
    ensures IsPrefix(name, r)
    ensures hasHtml <==> IsSuffix(" (txt + html)", r)
    ensures !hasHtml <==> IsSuffix(" (txt)", r)
    ensures |r| == |name| + (if hasHtml then 13 else 6)
  {
    var r := name + (if hasHtml then " (txt + html)" else " (txt)");
    assert r[..|name|] == name;
    assert r[|r| - 2] == (if hasHtml then 'l' else 't');
    r
  }

  /** `p.split('templates/')[1]`: the text after the first `templates/`,
      up to a second one if there is one; None where Python's indexing
      raises, because the path has no `templates/` at all. */
  function Reference(p: string): (r: Option<string>)
    ensures r.None? <==> !Contains(p, Sep)
    ensures r.Some? ==>
              var i := IndexOf(p, Sep).value;
              && IsPrefix(p[..i] + Sep + r.value, p)
              && !Contains(r.value, Sep)
              && (|p| == i + |Sep| + |r.value| || OccursAt(p, Sep, i + |Sep| + |r.value|))
  {
    match IndexOf(p, Sep)
    case None => None
    case Some(i) =>
      var from := i + |Sep|;
      var to := match IndexFrom(p, Sep, from) case None => |p| case Some(j) => j;
      var ref := p[from..to];
      assert p[..to] == p[..i] + Sep + ref;
      assert !Contains(ref, Sep) by {
        forall k: nat | k + |Sep| <= |ref| ensures !OccursAt(ref, Sep, k) {
          OccursInSlice(p, Sep, from, to, k);
        }
      }
      Some(ref)
  }

  /** One template choice: its reference and its label. */
  type Choice = (string, string)

  /** The choice offered for one template path; None where the reference
      cannot be taken. */
  function Entry(p: string, htmlExists: string -> bool): (r: Option<Choice>)
    ensures r.None? <==> !Contains(p, Sep)
    ensures r.Some? ==> && r.value.0 == Reference(p).value
                        && r.value.1 == Label(Stem(p), htmlExists(HtmlCounterpart(p)))
  {
    match Reference(p)
    case None => None
    case Some(ref) => Some((ref, Label(Stem(p), htmlExists(HtmlCounterpart(p)))))
  }

  /** `get_available_templates` over the `.txt` paths found, in the order
      found. The `.html` check uses `htmlExists`; a path without a
      `templates/` segment raises, and the whole call with it. */
  function AvailableTemplates(paths: seq<string>, htmlExists: string -> bool): (r: Result<seq<Choice>, Error>)
    ensures r.Success? <==> forall k :: 0 <= k < |paths| ==> Entry(paths[k], htmlExists).Some?
    ensures r.Success? ==>
              && |r.value| == |paths|
              && forall k :: 0 <= k < |paths| ==> Entry(paths[k], htmlExists) == Some(r.value[k])
    ensures r.Failure? ==>
              exists k :: && 0 <= k < |paths|
                          && r.error == TemplatesMissing(paths[k])
                          && Entry(paths[k], htmlExists).None?
                          && forall j :: 0 <= j < k ==> Entry(paths[j], htmlExists).Some?
  {
    Gather(paths, Entries(paths, htmlExists))
  }

  /** The choice each path yields, in order. */
  function Entries(paths: seq<string>, htmlExists: string -> bool): (r: seq<Option<Choice>>)
    ensures |r| == |paths|
    ensures forall k :: 0 <= k < |paths| ==> r[k] == Entry(paths[k], htmlExists)
  {
    seq(|paths|, k requires 0 <= k < |paths| => Entry(paths[k], htmlExists))
  }

  /** The loop over the found paths, given the choice each one yields: the
      choices in order, or the first path that yields none. */
  function Gather(paths: seq<string>, entries: seq<Option<Choice>>): (r: Result<seq<Choice>, Error>)
    requires |entries| == |paths|
    ensures r.Success? <==> forall k :: 0 <= k < |paths| ==> entries[k].Some?
    ensures r.Success? ==> |r.value| == |paths| && forall k :: 0 <= k < |paths| ==> entries[k] == Some(r.value[k])
    ensures r.Failure? ==>
              exists k :: && 0 <= k < |paths|
                          && r.error == TemplatesMissing(paths[k])
                          && entries[k].None?
                          && forall j :: 0 <= j < k ==> entries[j].Some?
    decreases |paths|
  {
    if |paths| == 0 then Success([])
    else
      match entries[0]
      case None => Failure(TemplatesMissing(paths[0]))
      case Some(choice) =>
        var rest := Gather(paths[1..], entries[1..]);
        assert forall k :: 1 <= k < |paths| ==> paths[k] == paths[1..][k - 1] && entries[k] == entries[1..][k - 1];
        match rest
        case Failure(e) =>
          ghost var k :| && 0 <= k < |paths[1..]|
                         && e == TemplatesMissing(paths[1..][k])
                         && entries[1..][k].None?
                         && forall j :: 0 <= j < k ==> entries[1..][j].Some?;
          assert e == TemplatesMissing(paths[k + 1]);
          Failure(e)
        case Success(choices) =>
          Success([choice] + choices)
  }

  /** A path that ends in ".txt" and has no other ".txt" has its counterpart
      at the same path ending in ".html". */
  lemma {:induction false} CounterpartOfTxt(stem: string)
    requires !Contains(stem, ".txt")
    ensures HtmlCounterpart(stem + ".txt") == stem + ".html"
    decreases |stem|
  {
    var s := stem + ".txt";
    if |stem| == 0 {
      assert s[..4] == ".txt";
    } else {
      assert s[..4] != ".txt" by {
        if |stem| >= 4 {
          assert s[..4] == stem[..4];
          assert !OccursAt(stem, ".txt", 0);
        } else {
          assert s[..4][|stem|] == '.';
          assert ".txt"[|stem|] != '.';
        }
      }
      NotInSlice(stem, ".txt", 1, |stem|);
      assert forall k :: 0 <= k < |stem| - 1 ==> stem[1..|stem|][k] == stem[1..][k];
      assert stem[1..|stem|] == stem[1..];
      assert s[1..] == stem[1..] + ".txt";
      CounterpartOfTxt(stem[1..]);
      assert stem + ".html" == [stem[0]] + (stem[1..] + ".html");
    }
  }

  /** A directory path with no 'm' and no '.' in it, such as "/path/": no
      `templates/` and no ".txt" can start inside it. */
  predicate PlainRoot(root: string) {
    forall j :: 0 <= j < |root| ==> root[j] != 'm' && root[j] != '.'
  }

  /** The unit test's template paths below the directory `root`. */
  function SubdirTemplate(root: string): string { root + Sep + "subdir/test.txt" }
  function TopTemplate(root: string): string { root + Sep + "example.txt" }

  /** The unit test's `.html` lookup: only the subdirectory template has a
      counterpart. */
  function TestHtmlExists(root: string): string -> bool {
    p => p == root + Sep + "subdir/test.html"
  }

  /** The unit test: a template under a subdirectory with an `.html`
      counterpart and one at the top without are offered by their paths
      below `templates/`, labelled with their file names. */
  lemma TestTemplates(root: string)
    requires PlainRoot(root)
    ensures AvailableTemplates([SubdirTemplate(root), TopTemplate(root)], TestHtmlExists(root))
            == Success([("subdir/test.txt", "test (txt + html)"), ("example.txt", "example (txt)")])
  {
    TestSubdirEntry(root);
    TestTopEntry(root);
    TwoTemplates(SubdirTemplate(root), TopTemplate(root), TestHtmlExists(root),
                 ("subdir/test.txt", "test (txt + html)"), ("example.txt", "example (txt)"));
  }

  /** Two paths that both yield a choice are offered as those two choices,
      in order. */
  lemma TwoTemplates(p: string, q: string, htmlExists: string -> bool, c: Choice, d: Choice)
    requires Entry(p, htmlExists) == Some(c) && Entry(q, htmlExists) == Some(d)
    ensures AvailableTemplates([p, q], htmlExists) == Success([c, d])
  {
    var es := Entries([p, q], htmlExists);
    assert es[0] == Some(c) by { assert [p, q][0] == p; }
    assert es[1] == Some(d) by { assert [p, q][1] == q; }
    GatherTwo([p, q], es, c, d);
  }

  lemma GatherTwo(paths: seq<string>, es: seq<Option<Choice>>, c: Choice, d: Choice)
    requires |paths| == 2 && |es| == 2 && es[0] == Some(c) && es[1] == Some(d)
    ensures Gather(paths, es) == Success([c, d])
  {
    var r := Gather(paths, es);
    assert r.Success?;
    assert r.value[0] == c && r.value[1] == d;
    assert r.value == [c, d];
  }

  lemma TestSubdirEntry(root: string)
    requires PlainRoot(root)
    ensures Entry(SubdirTemplate(root), TestHtmlExists(root)) == Some(("subdir/test.txt", "test (txt + html)"))
  {
    SubdirFacts(root);
    LabelsOfTest();
  }

  lemma SubdirFacts(root: string)
    requires PlainRoot(root)
    ensures Reference(SubdirTemplate(root)) == Some("subdir/test.txt")
    ensures HtmlCounterpart(SubdirTemplate(root)) == root + Sep + "subdir/test.html"
    ensures Stem(SubdirTemplate(root)) == "test"
  {
    NoSepInSubdir();
    ReferenceAfterRoot(root, "subdir/test.txt");
    SubdirCounterpart(root);
    SubdirStem(root);
  }

  lemma SubdirCounterpart(root: string)
    requires PlainRoot(root)
    ensures HtmlCounterpart(SubdirTemplate(root)) == root + Sep + "subdir/test.html"
  {
    SubdirShapes(root);
    CounterpartAfterRoot(root, "subdir/test");
  }

  lemma SubdirStem(root: string)
    ensures Stem(SubdirTemplate(root)) == "test"
  {
    SubdirShapes(root);
    StemAfterRoot(root + Sep + "subdir", "test");
  }

  lemma TestTopEntry(root: string)
    requires PlainRoot(root)
    ensures Entry(TopTemplate(root), TestHtmlExists(root)) == Some(("example.txt", "example (txt)"))
  {
    TopFacts(root);
    LabelsOfTest();
  }

  lemma TopFacts(root: string)
    requires PlainRoot(root)
    ensures Reference(TopTemplate(root)) == Some("example.txt")
    ensures !TestHtmlExists(root)(HtmlCounterpart(TopTemplate(root)))
    ensures Stem(TopTemplate(root)) == "example"
  {
    NoSepInExample();
    ReferenceAfterRoot(root, "example.txt");
    TopCounterpart(root);
    TopStem(root);
  }

  lemma TopCounterpart(root: string)
    requires PlainRoot(root)
    ensures !TestHtmlExists(root)(HtmlCounterpart(TopTemplate(root)))
  {
    TopShapes(root);
    CounterpartAfterRoot(root, "example");
  }

  lemma TopStem(root: string)
    ensures Stem(TopTemplate(root)) == "example"
  {
    TopShapes(root);
    StemAfterRoot(root + "templates", "example");
  }

  /** The unit test's paths, split where the lemmas below need them. */
  lemma SubdirShapes(root: string)
    ensures SubdirTemplate(root) == root + Sep + "subdir/test" + ".txt"
    ensures SubdirTemplate(root) == (root + Sep + "subdir") + "/" + "test" + ".txt"
    ensures root + Sep + "subdir/test" + ".html" == root + Sep + "subdir/test.html"
  {
    assert "subdir/test.txt" == "subdir" + "/" + "test" + ".txt";
    Regroup(root + Sep, "subdir", "test", ".txt");
  }

  lemma TopShapes(root: string)
    ensures TopTemplate(root) == root + Sep + "example" + ".txt"
    ensures TopTemplate(root) == (root + "templates") + "/" + "example" + ".txt"
    ensures root + Sep + "example" + ".html" != root + Sep + "subdir/test.html"
  {
    assert Sep == "templates" + "/";
    assert "example.txt" == "example" + ".txt";
    assert (root + Sep + "example" + ".html")[|root| + 10] == 'e';
    assert (root + Sep + "subdir/test.html")[|root| + 10] == 's';
  }

  lemma Regroup(x: string, y: string, z: string, w: string)
    ensures x + (y + "/" + z + w) == x + y + "/" + z + w
  {
  }

  /** The counterpart of a template below a plain directory. */
  lemma CounterpartAfterRoot(root: string, rest: string)
    requires PlainRoot(root) && forall j :: 0 <= j < |rest| ==> rest[j] != '.'
    ensures HtmlCounterpart(root + Sep + rest + ".txt") == root + Sep + rest + ".html"
  {
    NoDotAfterRoot(root, rest);
    NoTxtIn(root + Sep + rest);
    CounterpartOfTxt(root + Sep + rest);
  }

  /** The stem of a template whose file name has no dot besides ".txt". */
  lemma StemAfterRoot(dir: string, stem: string)
    requires |stem| > 0 && forall j :: 0 <= j < |stem| ==> stem[j] != '.' && stem[j] != '/'
    ensures Stem(dir + "/" + stem + ".txt") == stem
  {
    assert dir + "/" + stem + ".txt" == dir + "/" + (stem + ".txt");
    BasenameAfterSlash(dir, stem + ".txt");
    SplitTxt(stem);
  }

  lemma LabelsOfTest()
    ensures Label("test", true) == "test (txt + html)"
    ensures Label("example", false) == "example (txt)"
  {
  }

  lemma NoSepInSubdir()
    ensures !Contains("subdir/test.txt", Sep)
  {
    var s := "subdir/test.txt";
    forall j | 0 <= j && j + 10 <= |s| ensures !OccursAt(s, Sep, j) {
      assert s[j..j + 10][2] == s[j + 2];
    }
  }

  lemma NoSepInExample()
    ensures !Contains("example.txt", Sep)
  {
    var s := "example.txt";
    forall j | 0 <= j && j + 10 <= |s| ensures !OccursAt(s, Sep, j) {
      assert s[j..j + 10][0] == s[j];
    }
  }

  /** A path made of a plain directory, `templates/` and a rest without
      `templates/` references that rest. */
  lemma ReferenceAfterRoot(root: string, rest: string)
    requires PlainRoot(root) && !Contains(rest, Sep)
    ensures Reference(root + Sep + rest) == Some(rest)
  {
    var p := root + Sep + rest;
    var n := |root|;
    MiddleOfJoin(root, Sep, rest);
    forall j | 0 <= j && j != n ensures !OccursAt(p, Sep, j) {
      if j + 10 <= |p| {
        assert p[j..j + 10][0] == p[j];
        assert p[j..j + 10][2] == p[j + 2];
        if j < n {
          assert p[j + 2] == if j + 2 < n then root[j + 2] else Sep[j + 2 - n];
        } else if j < n + 10 {
          assert p[j] == Sep[j - n];
          assert j + 2 < n + 10 ==> p[j + 2] == Sep[j + 2 - n];
        } else {
          assert p[n + 10..|p|] == rest;
          OccursInSlice(p, Sep, n + 10, |p|, j - n - 10);
        }
      }
    }
    ReferenceAt(p, n);
    DropJoin(root + Sep, rest);
  }

  /** A plain directory, `templates/` and a dot-free rest has no dot. */
  lemma NoDotAfterRoot(root: string, rest: string)
    requires PlainRoot(root) && forall j :: 0 <= j < |rest| ==> rest[j] != '.'
    ensures forall j :: 0 <= j < |root + Sep + rest| ==> (root + Sep + rest)[j] != '.'
  {
  }

  /** The basename of a path is what follows its last '/'. */
  lemma BasenameAfterSlash(dir: string, name: string)
    requires forall j :: 0 <= j < |name| ==> name[j] != '/'
    ensures Basename(dir + "/" + name) == name
  {
    var p := dir + "/" + name;
    assert p[|dir|] == '/';
    assert LastIndexOf(p, '/') == Some(|dir|);
    DropJoin(dir + "/", name);
  }

  /** A dot-free stem followed by ".txt" splits into the two. */
  lemma SplitTxt(stem: string)
    requires |stem| > 0 && forall j :: 0 <= j < |stem| ==> stem[j] != '.'
    ensures SplitExt(stem + ".txt") == (stem, ".txt")
  {
    var name := stem + ".txt";
    assert name[|stem|] == '.';
    assert LastIndexOf(name, '.') == Some(|stem|);
    assert name[0] != '.';
    assert name[..|stem|] == stem;
    DropJoin(stem, ".txt");
  }

  /** A path whose only `templates/` is at `i` is referenced by everything
      after it. */
  lemma ReferenceAt(p: string, i: nat)
    requires OccursAt(p, Sep, i)
    requires forall j :: 0 <= j && j != i ==> !OccursAt(p, Sep, j)
    ensures Reference(p) == Some(p[i + |Sep|..])
  {
    assert Contains(p, Sep);
    assert IndexOf(p, Sep) == Some(i);
    var after := IndexFrom(p, Sep, i + |Sep|);
    assert after == None;
    assert p[..|p|] == p;
  }

  /** A string without a dot has no ".txt" in it. */
  lemma NoTxtIn(s: string)
    requires forall j :: 0 <= j < |s| ==> s[j] != '.'
    ensures !Contains(s, ".txt")
  {
    forall j | 0 <= j && j + 4 <= |s| ensures !OccursAt(s, ".txt", j) {
      assert s[j..j + 4][0] == s[j];
    }
  }

  /** A path with a second `templates/` is cut short there: only the part
      between the first and the second is kept. */
  lemma NestedTemplatesTruncated()
    ensures Reference("/a/" + Sep + "b/" + Sep + "c.txt") == Some("b/")
  {
    var p := "/a/" + Sep + "b/" + Sep + "c.txt";
    NestedOccurrences(p);
    ReferenceBetween(p, 3, 15);
    assert p == ("/a/" + Sep) + "b/" + (Sep + "c.txt");
    MiddleOfJoin("/a/" + Sep, "b/", Sep + "c.txt");
    assert |"/a/" + Sep| == 13;
  }

  lemma NestedOccurrences(p: string)
    requires p == "/a/" + Sep + "b/" + Sep + "c.txt"
    ensures OccursAt(p, Sep, 3) && OccursAt(p, Sep, 15)
    ensures forall j :: 0 <= j && j != 3 && j != 15 ==> !OccursAt(p, Sep, j)
  {
    NestedFirst(p);
    NestedSecond(p);
    NestedOnlyTwice(p);
  }

  lemma NestedFirst(p: string)
    requires p == "/a/" + Sep + "b/" + Sep + "c.txt"
    ensures OccursAt(p, Sep, 3)
  {
    assert p == "/a/" + Sep + ("b/" + Sep + "c.txt");
    MiddleOfJoin("/a/", Sep, "b/" + Sep + "c.txt");
  }

  lemma NestedSecond(p: string)
    requires p == "/a/" + Sep + "b/" + Sep + "c.txt"
    ensures OccursAt(p, Sep, 15)
  {
    MiddleOfJoin("/a/" + Sep + "b/", Sep, "c.txt");
  }

  lemma NestedOnlyTwice(p: string)
    requires p == "/a/" + Sep + "b/" + Sep + "c.txt"
    ensures forall j :: 0 <= j && j != 3 && j != 15 ==> !OccursAt(p, Sep, j)
  {
    assert p == "/a/templates/b/templates/c.txt";
    forall j | 0 <= j && j != 3 && j != 15 ensures !OccursAt(p, Sep, j) {
      if j + 10 <= |p| { assert p[j..j + 10][0] == p[j]; assert p[j..j + 10][2] == p[j + 2]; }
    }
  }

  /** A path with `templates/` at `i` and at `j` and nowhere else is
      referenced by what lies between the two. */
  lemma ReferenceBetween(p: string, i: nat, j: nat)
    requires i + |Sep| <= j
    requires OccursAt(p, Sep, i) && OccursAt(p, Sep, j)
    requires forall k :: 0 <= k && k != i && k != j ==> !OccursAt(p, Sep, k)
    ensures Reference(p) == Some(p[i + |Sep|..j])
  {
    assert Contains(p, Sep);
    assert IndexOf(p, Sep) == Some(i);
    assert IndexFrom(p, Sep, i + |Sep|) == Some(j);
  }
}
