// Slash-separated paths: splitting, joining, last components and slugs.
module Paths {

  import opened Options

  // Index of the last slash, or -1.
  function LastSlash(s: string): (r: int)
    ensures -1 <= r < |s|
    ensures r >= 0 ==> s[r] == '/'
    ensures forall i :: r < i < |s| ==> s[i] != '/'
    ensures r == -1 <==> '/' !in s
  {
    if s == "" then -1
    else if s[|s| - 1] == '/' then |s| - 1
    else
      assert s == s[..|s| - 1] + [s[|s| - 1]];
      LastSlash(s[..|s| - 1])
  }

  // What follows the last slash.
  function LastPart(s: string): (r: string)
    ensures '/' !in r && |r| <= |s|
  {
    s[LastSlash(s) + 1..]
  }

  // What precedes the last slash, absent if there is none.
  function ParentOf(s: string): Option<string> {
    if LastSlash(s) == -1 then None else Some(s[..LastSlash(s)])
  }

  // A file name under a directory path; the empty path is the root.
  function Under(dir: string, name: string): string {
    if dir == "" then name else dir + "/" + name
  }

  predicate LeadingSlash(s: string) { s != "" && s[0] == '/' }

  predicate TrailingSlash(s: string) { s != "" && s[|s| - 1] == '/' }

  function StripOne(s: string): string {
    if LeadingSlash(s) then s[1..] else s
  }

  function StripLeading(s: string): (r: string)
    ensures !LeadingSlash(r) && |r| <= |s|
  {
    if LeadingSlash(s) then StripLeading(s[1..]) else s
  }

  function StripTrailing(s: string): (r: string)
    ensures !TrailingSlash(r) && |r| <= |s|
  {
    if TrailingSlash(s) then StripTrailing(s[..|s| - 1]) else s
  }

  // The last component of a path, trailing slashes aside.
  function Basename(s: string): string {
    LastPart(StripTrailing(s))
  }

  // The components of a path, as a split at every slash yields them.
  function Split(s: string): (r: seq<string>)
    ensures |r| > 0
    decreases |s|
  {
    if LastSlash(s) == -1 then [s] else Split(s[..LastSlash(s)]) + [LastPart(s)]
  }

  function Join(parts: seq<string>): string {
    if parts == [] then ""
    else if |parts| == 1 then parts[0]
    else Join(parts[..|parts| - 1]) + "/" + parts[|parts| - 1]
  }

  // Splitting is undone by joining, and no component contains a slash; this determines
  // the components.
  lemma {:induction false} SplitJoin(s: string)
    ensures Join(Split(s)) == s
    ensures forall i :: 0 <= i < |Split(s)| ==> '/' !in Split(s)[i]
    decreases |s|
  {
    if LastSlash(s) != -1 {
      var init := s[..LastSlash(s)];
      SplitJoin(init);
      assert Split(s)[..|Split(s)| - 1] == Split(init);
      assert s == init + "/" + LastPart(s);
      hide Split, LastPart;
    }
  }

  // The last slash of a path extended by one component.
  lemma LastSlashOf(dir: string, name: string)
    requires '/' !in name
    ensures LastSlash(dir + "/" + name) == |dir|
    ensures ParentOf(dir + "/" + name) == Some(dir) && LastPart(dir + "/" + name) == name
  {
    var s := dir + "/" + name;
    assert s[|dir|] == '/';
    forall i | |dir| < i < |s| ensures s[i] != '/' {
      assert s[i] == name[i - |dir| - 1];
    }
    assert LastSlash(s) == |dir|;
    assert s[..|dir|] == dir && s[|dir| + 1..] == name;
  }

  lemma UnderParts(dir: string, name: string)
    requires '/' !in name
    ensures LastPart(Under(dir, name)) == name
    ensures name != "" ==> Basename(Under(dir, name)) == name && !TrailingSlash(Under(dir, name))
    ensures ParentOf(Under(dir, name)) == if dir == "" then None else Some(dir)
  {
    if dir != "" { LastSlashOf(dir, name); }
    if name != "" {
      var s := Under(dir, name);
      assert s[|s| - 1] == name[|name| - 1];
    }
  }

  lemma UnderParent(dir: string, name: string, key: string)
    requires '/' !in name && key == Under(dir, name)
    ensures ParentOf(key) == if dir == "" then None else Some(dir)
  {
    UnderParts(dir, name);
  }

  // The directory can be read off the key.
  lemma UnderInjective(d: string, e: string, name: string)
    requires '/' !in name && Under(d, name) == Under(e, name)
    ensures d == e
  {
    hide Under, ParentOf;
    UnderParent(d, name, Under(d, name));
    UnderParent(e, name, Under(d, name));
  }

  lemma UnderLeading(dir: string, name: string)
    requires '/' !in name
    ensures LeadingSlash(Under(dir, name)) <==> LeadingSlash(dir)
  {
    if dir == "" && name != "" {
      assert name[0] in name;
    }
  }

  lemma {:induction false} StripLeadingUnder(x: string, name: string)
    requires '/' !in name
    ensures StripLeading(x + "/" + name) == Under(StripLeading(x), name)
  {
    var s := x + "/" + name;
    if x == "" {
      assert s[1..] == name;
      if name != "" { assert name[0] in name; }
    } else if LeadingSlash(x) {
      StripLeadingUnder(x[1..], name);
      assert s[1..] == x[1..] + "/" + name;
    }
  }

  // ---- Slugs ----

  predicate SlugChar(c: char) {
    'a' <= c <= 'z' || '0' <= c <= '9' || c == '-'
  }

  predicate IsSpace(c: char) {
    c == ' ' || '\t' <= c <= '\r'
  }

  function LowerChar(c: char): char {
    if 'A' <= c <= 'Z' then (c as int + 32) as char else c
  }

  function Expand(s: string): string {
    if s == "" then ""
    else (if s[0] == '@' then "-at-" else if s[0] == '.' then "-" else [LowerChar(s[0])]) + Expand(s[1..])
  }

  // Runs of white space become one dash.
  function Collapse(s: string, inRun: bool): string {
    if s == "" then ""
    else if IsSpace(s[0]) then (if inRun then "" else "-") + Collapse(s[1..], true)
    else [s[0]] + Collapse(s[1..], false)
  }

  function Keep(s: string): string {
    if s == "" then "" else (if SlugChar(s[0]) then [s[0]] else "") + Keep(s[1..])
  }

  lemma {:induction false} KeepChars(s: string)
    ensures forall c :: c in Keep(s) ==> SlugChar(c)
  {
    if s != "" {
      KeepChars(s[1..]);
    }
  }

  function Slugify(s: string): string {
    Keep(Collapse(Expand(s), false))
  }

  lemma {:induction false} ExpandAt(s: string)
    requires '@' in s
    ensures 'a' in Expand(s)
  {
    if s[0] == '@' {
      assert "-at-"[1] == 'a';
      assert Expand(s)[1] == 'a';
    } else {
      assert s == [s[0]] + s[1..];
      ExpandAt(s[1..]);
    }
  }

  lemma {:induction false} CollapseKeeps(s: string, inRun: bool, c: char)
    requires c in s && !IsSpace(c)
    ensures c in Collapse(s, inRun)
  {
    assert s == [s[0]] + s[1..];
    if s[0] != c {
      if IsSpace(s[0]) { CollapseKeeps(s[1..], true, c); } else { CollapseKeeps(s[1..], false, c); }
    }
  }

  lemma {:induction false} KeepKeeps(s: string, c: char)
    requires c in s && SlugChar(c)
    ensures c in Keep(s)
  {
    assert s == [s[0]] + s[1..];
    if s[0] != c { KeepKeeps(s[1..], c); }
  }

  // A slug contains no slash, and the slug of an e-mail address is not empty, so a path
  // that starts with it has no leading slash.
  lemma SlugShape(s: string)
    ensures '/' !in Slugify(s)
    ensures '@' in s ==> Slugify(s) != "" && !LeadingSlash(Slugify(s))
  {
    KeepChars(Collapse(Expand(s), false));
    if '@' in s {
      ExpandAt(s);
      CollapseKeeps(Expand(s), false, 'a');
      KeepKeeps(Collapse(Expand(s), false), 'a');
      assert Slugify(s)[0] in Slugify(s);
    }
  }

  // ---- What a slug is made of ----

  // The contribution of one character after the text `before`.
  function SlugPiece(before: string, c: char): string {
    if c == '@' then "-at-"
    else if c == '.' || c == '-' then "-"
    else if IsSpace(c) then (if before != "" && IsSpace(before[|before| - 1]) then "" else "-")
    else if 'A' <= c <= 'Z' then [(c as int + 32) as char]
    else if 'a' <= c <= 'z' || '0' <= c <= '9' then [c]
    else ""
  }

  lemma ExpandStep(s: string)
    requires s != ""
    ensures Expand(s) == Expand([s[0]]) + Expand(s[1..])
  {
    ExpandOne(s[0]);
    hide LowerChar;
  }

  lemma {:induction false} ExpandAppend(a: string, b: string)
    ensures Expand(a + b) == Expand(a) + Expand(b)
  {
    if a == "" {
      assert a + b == b;
    } else {
      ExpandAppend(a[1..], b);
      ExpandStep(a);
      ExpandStep(a + b);
      assert (a + b)[1..] == a[1..] + b;
      hide Expand;
      Assoc(Expand([a[0]]), Expand(a[1..]), Expand(b));
    }
  }

  lemma KeepStep(s: string)
    requires s != ""
    ensures Keep(s) == Keep([s[0]]) + Keep(s[1..])
  {
    KeepOne(s[0]);
    hide SlugChar;
  }

  lemma {:induction false} KeepAppend(a: string, b: string)
    ensures Keep(a + b) == Keep(a) + Keep(b)
  {
    if a == "" {
      assert a + b == b;
    } else {
      KeepAppend(a[1..], b);
      KeepStep(a);
      KeepStep(a + b);
      assert (a + b)[1..] == a[1..] + b;
      hide Keep;
      Assoc(Keep([a[0]]), Keep(a[1..]), Keep(b));
    }
  }

  predicate InRun(a: string, inRun: bool) {
    if a == "" then inRun else IsSpace(a[|a| - 1])
  }

  function CollapseHead(c: char, inRun: bool): string {
    if !IsSpace(c) then [c] else if inRun then "" else "-"
  }

  lemma CollapseStep(s: string, inRun: bool)
    requires s != ""
    ensures Collapse(s, inRun) == CollapseHead(s[0], inRun) + Collapse(s[1..], IsSpace(s[0]))
  {
    hide IsSpace;
  }

  lemma Assoc(x: string, y: string, z: string)
    ensures x + (y + z) == (x + y) + z
  {
  }

  lemma {:induction false} CollapseAppend(a: string, b: string, inRun: bool)
    ensures Collapse(a + b, inRun) == Collapse(a, inRun) + Collapse(b, InRun(a, inRun))
  {
    hide IsSpace;
    if a == "" {
      assert a + b == b && Collapse(a, inRun) == "";
    } else {
      CollapseAppend(a[1..], b, IsSpace(a[0]));
      assert (a + b)[1..] == a[1..] + b;
      assert InRun(a[1..], IsSpace(a[0])) == InRun(a, inRun);
      var head := CollapseHead(a[0], inRun);
      CollapseStep(a, inRun);
      CollapseStep(a + b, inRun);
      hide Collapse, InRun, CollapseHead;
      Assoc(head, Collapse(a[1..], IsSpace(a[0])), Collapse(b, InRun(a, inRun)));
    }
  }

  lemma ExpandOne(c: char)
    ensures Expand([c]) == if c == '@' then "-at-" else if c == '.' then "-" else [LowerChar(c)]
  {
    assert [c][1..] == "";
    assert Expand("") == "";
  }

  lemma EndOfExpand(s: string)
    ensures InRun(Expand(s), false) == InRun(s, false)
  {
    if s != "" {
      var init, c := s[..|s| - 1], s[|s| - 1];
      assert s == init + [c];
      ExpandAppend(init, [c]);
      ExpandOne(c);
      assert Expand(s)[|Expand(s)| - 1] == Expand([c])[|Expand([c])| - 1];
    }
  }

  lemma KeepOne(c: char)
    ensures Keep([c]) == if SlugChar(c) then [c] else ""
  {
    assert [c][1..] == "";
    assert Keep("") == "";
  }

  lemma CollapseOne(c: char, inRun: bool)
    ensures Collapse([c], inRun) == if !IsSpace(c) then [c] else if inRun then "" else "-"
  {
    assert [c][1..] == "";
    assert Collapse("", true) == "" && Collapse("", false) == "";
  }

  lemma OnePiece(before: string, c: char)
    ensures Keep(Collapse(Expand([c]), InRun(before, false))) == SlugPiece(before, c)
  {
    ExpandOne(c);
    if c == '@' {
      AtPiece(InRun(before, false));
    } else {
      var d := if c == '.' then '-' else LowerChar(c);
      assert Expand([c]) == [d];
      CollapseOne(d, InRun(before, false));
      KeepOne(d);
      KeepOne('-');
    }
  }

  lemma AtPiece(inRun: bool)
    ensures Keep(Collapse("-at-", inRun)) == "-at-"
  {
    assert "-at-" == ['-'] + (['a'] + (['t'] + ['-']));
    CollapseAppend(['-'], ['a'] + (['t'] + ['-']), inRun);
    CollapseAppend(['a'], ['t'] + ['-'], false);
    CollapseAppend(['t'], ['-'], false);
    CollapseOne('-', inRun);
    CollapseOne('a', false);
    CollapseOne('t', false);
    CollapseOne('-', false);
    KeepAppend(['-'], ['a'] + (['t'] + ['-']));
    KeepAppend(['a'], ['t'] + ['-']);
    KeepAppend(['t'], ['-']);
    KeepOne('-');
    KeepOne('a');
    KeepOne('t');
  }

  // Read from left to right, each character adds its piece and nothing else: `@` becomes
  // -at-, a dot or the first character of a run of white space a dash, capitals become
  // small, and what is neither letter, digit nor dash is dropped.
  lemma SlugGrows(before: string, c: char)
    ensures Slugify("") == "" && Slugify(before + [c]) == Slugify(before) + SlugPiece(before, c)
  {
    ExpandAppend(before, [c]);
    EndOfExpand(before);
    CollapseAppend(Expand(before), Expand([c]), false);
    KeepAppend(Collapse(Expand(before), false), Collapse(Expand([c]), InRun(before, false)));
    OnePiece(before, c);
    EmptySlug();
  }

  lemma EmptySlug()
    ensures Expand("") == "" && Slugify("") == ""
  {
    assert Expand("") == "" && Collapse("", false) == "" && Keep("") == "";
  }
}
