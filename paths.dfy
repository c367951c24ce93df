/**
 * The directory computation used before every file write:
 * `'/rodir/' + p.split('/').slice(0, -1).join('/')`.
 */
module Paths {

  const Root: string := "/rodir/"

  /** `String.prototype.split('/')`: always at least one part, parts hold no '/'. */
  function Split(s: string): (parts: seq<string>)
    ensures |parts| >= 1
    ensures forall k :: 0 <= k < |parts| ==> '/' !in parts[k]
  {
    if s == [] then [""]
    else if s[0] == '/' then [""] + Split(s[1..])
    else
      var rest := Split(s[1..]);
      [[s[0]] + rest[0]] + rest[1..]
  }

  /** `Array.prototype.join('/')`. */
  function Join(parts: seq<string>): string {
    if parts == [] then ""
    else if |parts| == 1 then parts[0]
    else parts[0] + "/" + Join(parts[1..])
  }

  /** `parts.slice(0, -1)`. */
  function DropLast(parts: seq<string>): seq<string> {
    if parts == [] then [] else parts[..|parts| - 1]
  }

  /** The directory the source creates before writing the file stored under `p`. */
  function DirPath(p: string): (d: string)
    ensures |d| >= |Root| && d[..|Root|] == Root
  {
    Root + Join(DropLast(Split(p)))
  }

  /** Where the file stored under `p` lands in the target filesystem. */
  function FilePath(p: string): (f: string)
    ensures |f| == |Root| + |p|
  {
    Root + p
  }

  /** Index of the last '/' in `p`, or -1 when there is none. */
  function LastSlash(p: string): (k: int)
    ensures -1 <= k < |p|
    ensures k >= 0 ==> p[k] == '/'
    ensures forall j :: k < j < |p| ==> p[j] != '/'
  {
    if |p| == 0 then -1
    else if p[|p| - 1] == '/' then |p| - 1
    else LastSlash(p[..|p| - 1])
  }

  /** Everything before the last '/', or "" when `p` holds none. */
  function Parent(p: string): string {
    var k := LastSlash(p);
    if k < 0 then "" else p[..k]
  }

  /** The properties of LastSlash determine it. */
  lemma LastSlashUnique(p: string, k: int)
    requires -1 <= k < |p|
    requires k >= 0 ==> p[k] == '/'
    requires forall j :: k < j < |p| ==> p[j] != '/'
    ensures LastSlash(p) == k
  {
  }

  lemma LastSlashCons(c: char, t: string)
    ensures LastSlash(t) >= 0 ==> LastSlash([c] + t) == LastSlash(t) + 1
    ensures LastSlash(t) < 0 && c == '/' ==> LastSlash([c] + t) == 0
    ensures LastSlash(t) < 0 && c != '/' ==> LastSlash([c] + t) == -1
  {
    var s := [c] + t;
    var k := LastSlash(t);
    assert forall j :: 0 < j < |s| ==> s[j] == t[j - 1];
    if k >= 0 {
      LastSlashUnique(s, k + 1);
    } else if c == '/' {
      LastSlashUnique(s, 0);
    } else {
      LastSlashUnique(s, -1);
    }
  }

  /** `p.split('/').join('/')` gives `p` back. */
  lemma {:induction false} JoinSplit(s: string)
    ensures Join(Split(s)) == s
  {
    if s == [] {
    } else if s[0] == '/' {
      JoinSplit(s[1..]);
      assert s == "/" + s[1..];
    } else {
      var rest := Split(s[1..]);
      JoinSplit(s[1..]);
      if |rest| == 1 {
        assert s == [s[0]] + rest[0];
      } else {
        assert Join(rest) == rest[0] + "/" + Join(rest[1..]);
        assert s == [s[0]] + s[1..];
      }
    }
  }

  /** Joining a non-empty tail behind one more part puts a '/' between them. */
  lemma JoinCons(x: string, parts: seq<string>)
    requires parts != []
    ensures Join([x] + parts) == x + "/" + Join(parts)
  {
    assert ([x] + parts)[1..] == parts;
  }

  /** Dropping the last part and joining leaves exactly the text before the last '/'. */
  lemma {:induction false} JoinDropLastSplit(s: string)
    ensures Join(DropLast(Split(s))) == Parent(s)
  {
    if s != [] {
      var t := s[1..];
      assert s == [s[0]] + t;
      LastSlashCons(s[0], t);
      JoinDropLastSplit(t);
      if |Split(t)| == 1 {
        SingleSplitHasNoSlash(t);
        if s[0] == '/' {
          assert DropLast(Split(s)) == [""];
        } else {
          assert DropLast(Split(s)) == [];
        }
      } else {
        SlashSplitsInTwo(t);
        if s[0] == '/' {
          SlashHeadStep(s);
        } else {
          OtherHeadStep(s);
        }
      }
    }
  }

  lemma SlashHeadStep(s: string)
    requires s != [] && s[0] == '/' && |Split(s[1..])| >= 2
    requires LastSlash(s[1..]) >= 0 && LastSlash(s) == LastSlash(s[1..]) + 1
    requires Join(DropLast(Split(s[1..]))) == Parent(s[1..])
    ensures Join(DropLast(Split(s))) == Parent(s)
  {
    var t := s[1..];
    var rest := Split(t);
    var init := DropLast(rest);
    assert Split(s) == [""] + rest;
    DropLastCons("", rest);
    assert init == rest[..|rest| - 1] && |init| >= 1;
    assert DropLast(Split(s)) == [""] + init;
    JoinCons("", init);
    assert Join(init) == Parent(t);
    ParentCons(s);
    assert "" + "/" + Parent(t) == [s[0]] + Parent(t);
  }

  lemma OtherHeadStep(s: string)
    requires s != [] && s[0] != '/' && |Split(s[1..])| >= 2
    requires LastSlash(s[1..]) >= 0 && LastSlash(s) == LastSlash(s[1..]) + 1
    requires Join(DropLast(Split(s[1..]))) == Parent(s[1..])
    ensures Join(DropLast(Split(s))) == Parent(s)
  {
    var rest := Split(s[1..]);
    assert Split(s) == [[s[0]] + rest[0]] + rest[1..];
    JoinDropLastGlue(s[0], rest);
    ParentCons(s);
  }

  /** Gluing a character onto the first part glues it onto the joined prefix. */
  lemma JoinDropLastGlue(c: char, rest: seq<string>)
    requires |rest| >= 2
    ensures Join(DropLast([[c] + rest[0]] + rest[1..])) == [c] + Join(DropLast(rest))
  {
    var mid := rest[1..|rest| - 1];
    DropLastCons([c] + rest[0], rest[1..]);
    DropLastCons(rest[0], rest[1..]);
    assert [rest[0]] + rest[1..] == rest;
    GlueJoin(c, rest[0], mid);
  }

  /** Dropping the last part of a list with a head keeps the head. */
  lemma DropLastCons(x: string, tail: seq<string>)
    requires tail != []
    ensures DropLast([x] + tail) == [x] + tail[..|tail| - 1]
  {
  }

  /** Gluing a character onto the first of the joined parts. */
  lemma GlueJoin(c: char, x: string, mid: seq<string>)
    ensures Join([[c] + x] + mid) == [c] + Join([x] + mid)
  {
    if mid == [] {
      assert [[c] + x] + mid == [[c] + x] && [x] + mid == [x];
    } else {
      JoinCons([c] + x, mid);
      JoinCons(x, mid);
      assert [c] + x + "/" + Join(mid) == [c] + (x + "/" + Join(mid));
    }
  }

  lemma ParentCons(s: string)
    requires s != [] && LastSlash(s[1..]) >= 0 && LastSlash(s) == LastSlash(s[1..]) + 1
    ensures Parent(s) == [s[0]] + Parent(s[1..])
  {
    var k := LastSlash(s[1..]);
    assert s[..k + 1] == [s[0]] + s[1..][..k];
  }

  /** A single part means the input held no '/' at all. */
  lemma {:induction false} SingleSplitHasNoSlash(s: string)
    requires |Split(s)| == 1
    ensures LastSlash(s) < 0
  {
    if s != [] {
      assert s[0] != '/';
      assert s == [s[0]] + s[1..];
      SingleSplitHasNoSlash(s[1..]);
      LastSlashCons(s[0], s[1..]);
    }
  }

  /** Two or more parts mean the input held a '/'. */
  lemma {:induction false} SlashSplitsInTwo(s: string)
    requires |Split(s)| >= 2
    ensures LastSlash(s) >= 0
  {
    assert s != [];
    assert s == [s[0]] + s[1..];
    LastSlashCons(s[0], s[1..]);
    if s[0] != '/' {
      SlashSplitsInTwo(s[1..]);
    }
  }

  /**
   * The directory handed to `mkdirTree` is the root followed by the parent of `p`;
   * the file itself is written inside it.
   */
  lemma DirPathIsParent(p: string)
    ensures DirPath(p) == Root + Parent(p)
    ensures LastSlash(p) < 0 ==> DirPath(p) == Root && FilePath(p) == DirPath(p) + p
    ensures LastSlash(p) >= 0 ==>
      FilePath(p) == DirPath(p) + "/" + p[LastSlash(p) + 1..] && '/' !in p[LastSlash(p) + 1..]
  {
    JoinDropLastSplit(p);
    var k := LastSlash(p);
    assert DirPath(p) == Root + Parent(p);
    if k >= 0 {
      SplitAt(p, k);
      var tail := p[k + 1..];
      assert Parent(p) == p[..k];
      Regroup3(Root, p[..k], "/", tail);
    } else {
      assert Parent(p) == "";
      assert Root + "" == Root;
    }
  }

  /** Concatenation is associative; stated once for four pieces. */
  lemma Regroup3(a: string, b: string, c: string, d: string)
    ensures a + (b + c + d) == a + b + c + d
  {
  }

  /** Cutting at the last '/' leaves a slash-free tail. */
  lemma SplitAt(p: string, k: int)
    requires 0 <= k < |p| && p[k] == '/'
    requires forall j :: k < j < |p| ==> p[j] != '/'
    ensures p == p[..k] + "/" + p[k + 1..]
    ensures '/' !in p[k + 1..]
  {
    var tail := p[k + 1..];
    assert forall j :: 0 <= j < |tail| ==> tail[j] == p[k + 1 + j];
  }

  /** Two files of one directory get the same directory path. */
  lemma SameParentSameDir(p: string, q: string)
    requires Parent(p) == Parent(q)
    ensures DirPath(p) == DirPath(q)
  {
    DirPathIsParent(p);
    DirPathIsParent(q);
  }

  /** Distinct stored paths land on distinct files. */
  lemma FilePathInjective(p: string, q: string)
    requires FilePath(p) == FilePath(q)
    ensures p == q
  {
    assert p == FilePath(p)[|Root|..];
    assert q == FilePath(q)[|Root|..];
  }
}
