/** `Path::file_name` and `Path::file_stem` on Unix paths: the last normal
    component of a path, and that component without its final extension. */
module Paths {
  import opened Common
  import opened Text

  /** The parts of a split path that are path components: empty parts (from
      repeated or trailing slashes) and `.` parts are not. */
  function KeepNormal(parts: seq<string>): (r: seq<string>)
    ensures forall k :: 0 <= k < |r| ==> r[k] != "" && r[k] != "."
  {
    if parts == [] then []
    else if parts[0] == "" || parts[0] == "." then KeepNormal(parts[1..])
    else [parts[0]] + KeepNormal(parts[1..])
  }

  lemma {:induction false} KeepNormalAppend(xs: seq<string>, ys: seq<string>)
    ensures KeepNormal(xs + ys) == KeepNormal(xs) + KeepNormal(ys)
  {
    if xs == [] {
      assert xs + ys == ys;
    } else {
      assert (xs + ys)[0] == xs[0];
      assert (xs + ys)[1..] == xs[1..] + ys;
      KeepNormalAppend(xs[1..], ys);
    }
  }

  /** The named components of a path, in order. */
  function Components(p: Path): seq<string>
  {
    KeepNormal(SplitOn(p, '/'))
  }

  /** `Path::file_name`: the last component, unless there is none (the empty
      path, the root) or it is `..`. */
  function FileName(p: Path): (r: Option<string>)
    ensures r.Some? ==> r.value != "" && '/' !in r.value && r.value != ".."
  {
    var cs := Components(p);
    if cs == [] || cs[|cs| - 1] == ".." then None
    else
      assert cs[|cs| - 1] in SplitOn(p, '/') by { KeepNormalFrom(SplitOn(p, '/')); }
      Some(cs[|cs| - 1])
  }

  lemma {:induction false} KeepNormalFrom(parts: seq<string>)
    ensures forall x :: x in KeepNormal(parts) ==> x in parts
  {
    if parts != [] {
      KeepNormalFrom(parts[1..]);
    }
  }

  /** The stem of a file name: the name up to its last `.`, unless that dot
      is the first character or there is none, in which case the whole name. */
  function StemOfName(name: string): (r: string)
    ensures |r| <= |name|
    ensures r <= name
    ensures name != "" ==> r != ""
  {
    match LastIndexOf(name, '.')
    case None => name
    case Some(k) => if k == 0 then name else name[..k]
  }

  /** `Path::file_stem`. */
  function FileStem(p: Path): (r: Option<string>)
    ensures r.Some? <==> FileName(p).Some?
    ensures r.Some? ==> r.value != "" && '/' !in r.value
  {
    match FileName(p)
    case None => None
    case Some(name) => Some(StemOfName(name))
  }

  /** The default, empty path has no file stem. */
  lemma EmptyPathHasNoStem()
    ensures FileStem("") == None
  {
    assert IndexOf("", '/') == None;
    assert SplitOn("", '/') == [""];
  }

  /** Appending a plain name to a directory adds that name as the last
      component. */
  lemma ComponentsOfChild(dir: Path, name: string)
    requires name != "" && name != "." && '/' !in name
    ensures Components(dir + "/" + name) == Components(dir) + [name]
  {
    assert dir + "/" + name == dir + ['/'] + name;
    SplitOnAround(dir, '/', name);
    assert SplitOn(name, '/') == [name];
    KeepNormalAppend(SplitOn(dir, '/'), [name]);
    assert KeepNormal([name]) == [name];
  }

  /** A name ending in `.desktop` has the part before it as its stem. */
  lemma StemOfDesktopName(stem: string)
    requires stem != ""
    ensures StemOfName(stem + ".desktop") == stem
  {
    var name := stem + ".desktop";
    var k := LastIndexOf(name, '.');
    assert name[|stem|] == '.';
    assert name[|stem| + 1..] == "desktop";
    assert '.' !in name[|stem| + 1..];
    assert k.Some?;
    assert k.value == |stem|;
    assert name[..|stem|] == stem;
  }

  /** The stem of a desktop-entry path is its file name without `.desktop`. */
  lemma DesktopFileStem(dir: Path, stem: string)
    requires stem != "" && '/' !in stem
    ensures FileStem(dir + "/" + stem + ".desktop") == Some(stem)
  {
    var name := stem + ".desktop";
    assert '/' !in name;
    assert name != "" && name != "." && name != "..";
    assert dir + "/" + stem + ".desktop" == dir + "/" + name;
    ComponentsOfChild(dir, name);
    StemOfDesktopName(stem);
  }
}
