/** Lexical normal form of slash-separated paths, and which mount paths are accepted. */
module MountPaths {
  import opened Wrappers

  // ---------------------------------------------------------------- components

  /** The texts between slashes; always at least one. */
  function Split(path: string): (parts: seq<string>)
    ensures parts != []
    ensures forall p :: p in parts ==> '/' !in p
  {
    if path == "" then [""]
    else if path[0] == '/' then [""] + Split(path[1..])
    else var rest := Split(path[1..]); [[path[0]] + rest[0]] + rest[1..]
  }

  function Join(parts: seq<string>): string {
    if parts == [] then "" else if |parts| == 1 then parts[0] else parts[0] + "/" + Join(parts[1..])
  }

  lemma {:induction false} JoinSplit(path: string)
    ensures Join(Split(path)) == path
  {
    if path != "" {
      JoinSplit(path[1..]);
      var rest := Split(path[1..]);
      if path[0] != '/' {
        assert Split(path)[1..] == rest[1..];
      } else {
        assert Split(path)[1..] == rest;
      }
    }
  }

  lemma {:induction false} SplitText(text: string, path: string)
    requires '/' !in text
    ensures Split(text + "/" + path) == [text] + Split(path)
    ensures Split(text) == [text]
  {
    if text == "" {
      assert text + "/" + path == "/" + path;
    } else {
      SplitText(text[1..], path);
      assert (text + "/" + path)[1..] == text[1..] + "/" + path;
      assert [text[0]] + text[1..] == text;
    }
  }

  /** A non-empty list of texts without slashes can be read back from its joined form. */
  lemma {:induction false} SplitJoin(parts: seq<string>)
    requires parts != [] && forall p :: p in parts ==> '/' !in p
    ensures Split(Join(parts)) == parts
  {
    if |parts| == 1 {
      SplitText(parts[0], "");
    } else {
      SplitText(parts[0], Join(parts[1..]));
      SplitJoin(parts[1..]);
    }
  }

  // ---------------------------------------------------------------- Clean

  /** One component: nothing for "" and ".", one level up for "..", which the root absorbs. */
  function Enter(stack: seq<string>, part: string): seq<string> {
    if part == "" || part == "." then stack
    else if part == ".." then if stack == [] then stack else stack[..|stack| - 1]
    else stack + [part]
  }

  function Reduce(parts: seq<string>): seq<string> {
    if parts == [] then [] else Enter(Reduce(parts[..|parts| - 1]), parts[|parts| - 1])
  }

  predicate IsAbs(path: string) {
    path != "" && path[0] == '/'
  }

  /** filepath.Clean of a rooted path on a slash-separated system. */
  function Clean(path: string): string
    requires IsAbs(path)
  {
    "/" + Join(Reduce(Split(path)))
  }

  datatype PathFault = EmptyPath | NotAbsolute | NotClean

  /** The first test a mount path fails, if any. */
  function MountPathFault(path: string): Option<PathFault> {
    if path == "" then Some(EmptyPath)
    else if !IsAbs(path) then Some(NotAbsolute)
    else if Clean(path) != path then Some(NotClean)
    else None
  }

  predicate IsValidMountPath(path: string) {
    MountPathFault(path).None?
  }

  // ---------------------------------------------------------------- accepted paths

  /** The name of one directory. */
  predicate IsName(part: string) {
    part != "" && part != "." && part != ".." && '/' !in part
  }

  predicate AllNames(parts: seq<string>) {
    forall p :: p in parts ==> IsName(p)
  }

  lemma {:induction false} ReduceHasOnlyNames(parts: seq<string>)
    requires forall p :: p in parts ==> '/' !in p
    ensures AllNames(Reduce(parts))
  {
    if parts != [] {
      var front := parts[..|parts| - 1];
      assert forall p :: p in front ==> p in parts;
      ReduceHasOnlyNames(front);
    }
  }

  lemma {:induction false} ReduceKeepsNames(parts: seq<string>)
    requires AllNames(parts)
    ensures Reduce(parts) == parts
  {
    if parts != [] {
      var front := parts[..|parts| - 1];
      assert forall p :: p in front ==> p in parts;
      ReduceKeepsNames(front);
      assert IsName(parts[|parts| - 1]);
      assert parts == front + [parts[|parts| - 1]];
    }
  }

  lemma {:induction false} ReduceSkipsLeadingSlash(parts: seq<string>)
    ensures Reduce([""] + parts) == Reduce(parts)
  {
    if parts == [] {
      assert [""] + parts == [""];
      assert Reduce([""]) == Enter(Reduce([]), "");
    } else {
      ReduceSkipsLeadingSlash(parts[..|parts| - 1]);
      assert ([""] + parts)[..|parts|] == [""] + parts[..|parts| - 1];
    }
  }

  /** The directory names an absolute path leads through. */
  function Location(path: string): seq<string> {
    Reduce(Split(path))
  }

  /** An absolute path written from directory names leads through exactly those names. */
  lemma LocationOfNames(parts: seq<string>)
    requires AllNames(parts)
    ensures Location("/" + Join(parts)) == parts
    ensures parts != [] ==> Split("/" + Join(parts)) == [""] + parts
  {
    var path := "/" + Join(parts);
    SplitText("", Join(parts));
    assert path == "" + "/" + Join(parts);
    if parts == [] {
      assert Split(path) == [""] + [""];
      ReduceSkipsLeadingSlash([""]);
      ReduceSkipsLeadingSlash([]);
      assert [""] + [] == [""];
    } else {
      SplitJoin(parts);
      ReduceSkipsLeadingSlash(parts);
      ReduceKeepsNames(parts);
    }
  }

  /** Accepted are exactly "/" and the "/"-joined lists of directory names. */
  lemma AcceptedAreNormalForms(path: string)
    ensures IsValidMountPath(path) <==> exists parts :: AllNames(parts) && path == "/" + Join(parts)
  {
    if IsValidMountPath(path) {
      ReduceHasOnlyNames(Split(path));
      assert AllNames(Location(path)) && path == "/" + Join(Location(path));
    }
    if parts :| AllNames(parts) && path == "/" + Join(parts) {
      LocationOfNames(parts);
    }
  }

  /**
   The same condition on the text between slashes. An absolute path is refused not only
   for "." and ".." but also for an empty component: a doubled or a trailing slash.
   */
  lemma AcceptedByComponents(path: string)
    requires IsAbs(path)
    ensures IsValidMountPath(path) <==> path == "/" || AllNames(Split(path)[1..])
  {
    if IsValidMountPath(path) && path != "/" {
      AcceptedAreNormalForms(path);
      var parts :| AllNames(parts) && path == "/" + Join(parts);
      LocationOfNames(parts);
      assert Split(path)[1..] == parts;
    }
    if path == "/" {
      NamesAreAccepted(path, []);
    } else if AllNames(Split(path)[1..]) {
      SplitText("", path[1..]);
      assert path == "" + "/" + path[1..];
      JoinSplit(path[1..]);
      assert Split(path)[1..] == Split(path[1..]);
      NamesAreAccepted(path, Split(path)[1..]);
    }
  }

  lemma NamesAreAccepted(path: string, parts: seq<string>)
    requires AllNames(parts) && path == "/" + Join(parts)
    ensures IsValidMountPath(path)
  {
    LocationOfNames(parts);
  }

  /** Cleaning an absolute path gives an accepted path to the same location; cleaning again changes nothing. */
  lemma CleanIsAccepted(path: string)
    requires IsAbs(path)
    ensures IsValidMountPath(Clean(path))
    ensures Location(Clean(path)) == Location(path)
    ensures Clean(Clean(path)) == Clean(path)
  {
    ReduceHasOnlyNames(Split(path));
    LocationOfNames(Location(path));
  }

  /** Among accepted paths, comparing texts is comparing locations. */
  lemma AcceptedTextIsLocation(a: string, b: string)
    requires IsValidMountPath(a) && IsValidMountPath(b)
    ensures a == b <==> Location(a) == Location(b)
  {
    assert a == "/" + Join(Location(a));
    assert b == "/" + Join(Location(b));
  }

  /** What a further component does to the location: a name enters a directory, ".." leaves it unless at the root, "." and "" stay. */
  lemma LocationStep(path: string, part: string)
    requires IsAbs(path) && '/' !in part
    ensures var here, there := Location(path), Location(path + "/" + part);
            if part in {"", "."} then there == here
            else if part == ".." then there == if here == [] then [] else here[..|here| - 1]
            else there == here + [part]
  {
    SplitAppend(path, part);
    var parts := Split(path + "/" + part);
    assert parts[..|parts| - 1] == Split(path);
  }

  lemma {:induction false} SplitAppend(path: string, part: string)
    requires '/' !in part
    ensures Split(path + "/" + part) == Split(path) + [part]
  {
    if path == "" {
      assert path + "/" + part == "/" + part;
      SplitText(part, "");
    } else {
      assert (path + "/" + part)[1..] == path[1..] + "/" + part;
      SplitAppend(path[1..], part);
    }
  }

  /** Which test refuses a path: emptiness, a missing leading slash, or a path that is not its own clean form. */
  lemma FaultsByTest(path: string)
    ensures MountPathFault(path) == Some(EmptyPath) <==> |path| == 0
    ensures MountPathFault(path) == Some(NotAbsolute) <==> |path| > 0 && path[0] != '/'
    ensures MountPathFault(path) == Some(NotClean) <==> |path| > 0 && path[0] == '/' && path != "/" && !AllNames(Split(path)[1..])
  {
    if IsAbs(path) { AcceptedByComponents(path); }
  }
}
