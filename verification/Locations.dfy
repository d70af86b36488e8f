/** Breakpoint locations: "file:line" on one hand, anything else (a function name) on the other. */
module Locations {
  import opened GoStrings

  datatype Spec = Spec(location: string, condition: string)

  datatype Located = AtLine(file: string, line: nat) | ByName

  datatype NormalizeError = EmptyLocation | NoWorkingDirectory
  datatype NormalizeResult = Normalized(spec: Spec, place: Located) | Invalid(error: NormalizeError)

  /** parseFileLineLocation: splits at the last colon and wants a positive number after it. */
  function ParseFileLine(location: string): (r: Located)
    ensures r.AtLine? ==> r.file != "" && 0 < r.line <= MAX_INT
  {
    var i := LastIndex(location, ':');
    if i <= 0 || i == |location| - 1 then ByName
    else
      match Atoi(location[i + 1..])
      case None => ByName
      case Some(line) => if line <= 0 then ByName else AtLine(location[..i], line)
  }

  /** fmt.Sprintf("%s:%d", file, line) */
  function FormatFileLine(file: string, line: nat): string {
    file + [':'] + Itoa(line)
  }

  /** filepath.IsAbs on Unix. */
  predicate IsAbs(path: string) {
    path != "" && path[0] == '/'
  }

  /** The lexical part of filepath.Clean for a rooted path: the segments that remain. */
  function CleanSegments(parts: seq<string>): seq<string> {
    if parts == [] then []
    else
      var kept, last := CleanSegments(parts[..|parts| - 1]), parts[|parts| - 1];
      if last == "" || last == "." then kept
      else if last == ".." then (if kept == [] then [] else kept[..|kept| - 1])
      else kept + [last]
  }

  /** filepath.Abs of a relative path: the working directory joined with it, cleaned. */
  function Absolute(workingDir: string, path: string): (r: string)
    ensures IsAbs(r)
  {
    "/" + Join(CleanSegments(Split(workingDir + "/" + path, '/')), '/')
  }

  /** normalizeBreakpointSpec. `workingDir` is None when the current directory is unknown. */
  function Normalize(spec: Spec, workingDir: Option<string>): (r: NormalizeResult)
  {
    var location := TrimSpace(spec.location);
    if location == "" then Invalid(EmptyLocation)
    else
      match ParseFileLine(location)
      case ByName => Normalized(spec.(location := location), ByName)
      case AtLine(file, line) =>
        if !IsAbs(file) && workingDir.None? then Invalid(NoWorkingDirectory)
        else
          var path := if IsAbs(file) then file else Absolute(workingDir.value, file);
          Normalized(spec.(location := FormatFileLine(path, line)), AtLine(path, line))
  }

  /** What a spec looks like once it is tracked. */
  predicate Canonical(spec: Spec, place: Located) {
    match place
    case ByName => spec.location != "" && Trimmed(spec.location) && ParseFileLine(spec.location).ByName?
    case AtLine(file, line) => IsAbs(file) && 0 < line <= MAX_INT && spec.location == FormatFileLine(file, line)
  }

  // ---------- lemmas ----------

  /** Printing a place and parsing it back: the path may itself contain colons. */
  lemma ParseOfFormat(file: string, line: nat)
    requires file != "" && 0 < line <= MAX_INT
    ensures ParseFileLine(FormatFileLine(file, line)) == AtLine(file, line)
  {
    var digits := Itoa(line);
    var s := FormatFileLine(file, line);
    assert ':' !in digits;
    LastIndexAt(file, ':', digits);
    assert s[|file| + 1..] == digits;
    assert s[..|file|] == file;
    AtoiOfItoa(line);
  }

  lemma {:induction false} LastIndexAt(a: string, c: char, b: string)
    requires c !in b
    ensures LastIndex(a + [c] + b, c) == |a|
    decreases |b|
  {
    var s := a + [c] + b;
    if b == "" {
      assert s[|s| - 1] == c;
    } else {
      var b' := b[..|b| - 1];
      assert s[..|s| - 1] == a + [c] + b';
      LastIndexAt(a, c, b');
    }
  }

  lemma FormatIsInjective(f1: string, l1: nat, f2: string, l2: nat)
    requires f1 != "" && 0 < l1 <= MAX_INT && f2 != "" && 0 < l2 <= MAX_INT
    requires FormatFileLine(f1, l1) == FormatFileLine(f2, l2)
    ensures f1 == f2 && l1 == l2
  {
    ParseOfFormat(f1, l1);
    ParseOfFormat(f2, l2);
  }

  lemma FormatIsTrimmed(file: string, line: nat)
    requires IsAbs(file)
    ensures Trimmed(FormatFileLine(file, line))
  {
    var s := FormatFileLine(file, line);
    assert s[0] == '/';
    assert IsDigit(Itoa(line)[|Itoa(line)| - 1]);
  }

  /** Whatever normalization accepts is canonical. */
  lemma NormalizeIsCanonical(spec: Spec, workingDir: Option<string>)
    ensures var r := Normalize(spec, workingDir);
            r.Normalized? ==> Canonical(r.spec, r.place) && r.spec.condition == spec.condition
  {
  }

  /** The canonical specs are exactly the ones that normalization returns unchanged,
      wherever the process runs. */
  lemma CanonicalIsFixed(spec: Spec, place: Located)
    ensures Canonical(spec, place) <==> forall d: Option<string> :: Normalize(spec, d) == Normalized(spec, place)
  {
    if Canonical(spec, place) {
      if place.AtLine? {
        FormatIsTrimmed(place.file, place.line);
        ParseOfFormat(place.file, place.line);
      }
    } else if forall d: Option<string> :: Normalize(spec, d) == Normalized(spec, place) {
      var d: Option<string> := None;
      assert Normalize(spec, d) == Normalized(spec, place);
      NormalizeIsCanonical(spec, d);
      assert false;
    }
  }

  /** Normalizing twice is normalizing once, even from another directory. */
  lemma {:induction false} NormalizeIsIdempotent(spec: Spec, first: Option<string>, second: Option<string>)
    requires Normalize(spec, first).Normalized?
    ensures Normalize(Normalize(spec, first).spec, second) == Normalize(spec, first)
  {
    var r := Normalize(spec, first);
    NormalizeIsCanonical(spec, first);
    CanonicalIsFixed(r.spec, r.place);
  }

  // ---------- in plain terms ----------

  /** A location names a line exactly when what follows its last colon is a positive number
      and something stands before it. */
  lemma ParseMeans(file: string, digits: string, line: nat)
    requires ':' !in digits
    ensures ParseFileLine(file + ":" + digits) == AtLine(file, line) <==>
            file != "" && line > 0 && Atoi(digits) == Some(line)
  {
    var s := file + ":" + digits;
    LastIndexAt(file, ':', digits);
    assert s[|file| + 1..] == digits;
    assert s[..|file|] == file;
  }

  lemma LineIsBehindTheLastColon(location: string) returns (digits: string)
    requires ParseFileLine(location).AtLine?
    ensures ':' !in digits && location == ParseFileLine(location).file + ":" + digits
  {
    NoneAfterLast(location, ':');
    digits := location[LastIndex(location, ':') + 1..];
  }

  /** A name that is a segment of its own and stays one. */
  predicate IsPlain(segment: string) {
    segment != "" && segment != "." && segment != ".." && '/' !in segment
  }

  predicate AllPlain(parts: seq<string>) {
    forall part :: part in parts ==> IsPlain(part)
  }

  /** No empty segment, no dot and no double dot between its slashes. */
  predicate IsClean(path: string) {
    AllPlain(Split(path, '/'))
  }

  /** Cleaning goes on from what the segments before leave. */
  lemma {:induction false} CleanGoesOn(a: seq<string>, a': seq<string>, b: seq<string>)
    requires CleanSegments(a) == CleanSegments(a')
    ensures CleanSegments(a + b) == CleanSegments(a' + b)
    decreases |b|
  {
    if b == [] {
      assert a + b == a && a' + b == a';
    } else {
      var init := b[..|b| - 1];
      assert (a + b)[..|a + b| - 1] == a + init && (a' + b)[..|a' + b| - 1] == a' + init;
      CleanGoesOn(a, a', init);
    }
  }

  lemma {:induction false} PlainStays(a: seq<string>, parts: seq<string>)
    requires AllPlain(parts)
    ensures CleanSegments(a + parts) == CleanSegments(a) + parts
    decreases |parts|
  {
    if parts == [] {
      assert a + parts == a;
    } else {
      var init, last := parts[..|parts| - 1], parts[|parts| - 1];
      assert last in parts && parts == init + [last];
      assert (a + parts)[..|a + parts| - 1] == a + init;
      PlainStays(a, init);
    }
  }

  lemma {:induction false} CleanIsPlain(parts: seq<string>)
    requires forall part :: part in parts ==> '/' !in part
    ensures AllPlain(CleanSegments(parts))
  {
    if parts != [] {
      CleanIsPlain(parts[..|parts| - 1]);
    }
  }

  lemma CleanSnoc(a: seq<string>, last: string)
    ensures CleanSegments(a + [last]) ==
            if last == "" || last == "." then CleanSegments(a)
            else if last != ".." then CleanSegments(a) + [last]
            else if CleanSegments(a) == [] then [] else CleanSegments(a)[..|CleanSegments(a)| - 1]
  {
    assert (a + [last])[..|a|] == a;
  }

  /** A clean path stands behind what its directory leaves. */
  lemma CleanBehind(dir: string, path: string)
    requires IsClean(path)
    ensures Absolute(dir, path) == "/" + Join(CleanSegments(Split(dir, '/')) + Split(path, '/'), '/')
  {
    SplitSides(dir, '/', path);
    PlainStays(Split(dir, '/'), Split(path, '/'));
  }

  lemma CleanDirectory(dir: string)
    requires IsClean(dir)
    ensures CleanSegments(Split("/" + dir, '/')) == Split(dir, '/')
  {
    hide Split, IndexOf;
    SplitAt("", '/', dir);
    assert "" + ['/'] + dir == "/" + dir;
    CleanSnoc([], "");
    assert [] + [""] == [""];
    PlainStays([""], Split(dir, '/'));
  }

  /** In a clean directory a clean relative path stands behind the directory. */
  lemma AbsoluteOfClean(dir: string, path: string)
    requires IsClean(path)
    ensures IsClean(dir) ==> Absolute("/" + dir, path) == "/" + dir + "/" + path
    ensures Absolute("/", path) == "/" + path
  {
    hide Split, CleanSegments, Join, Absolute;
    if IsClean(dir) {
      CleanBehind("/" + dir, path);
      CleanDirectory(dir);
      SplitSides(dir, '/', path);
      JoinOfSplit(dir + "/" + path, '/');
      assert "/" + (dir + "/" + path) == "/" + dir + "/" + path;
    }
    CleanBehind("/", path);
    RootIsEmpty();
    JoinOfSplit(path, '/');
    assert [] + Split(path, '/') == Split(path, '/');
  }

  /** Two texts before a slash that leave the same segments. */
  lemma SameFront(a: string, a': string, path: string)
    requires CleanSegments(Split(a, '/')) == CleanSegments(Split(a', '/'))
    ensures Absolute(a, path) == Absolute(a', path)
  {
    hide Split, CleanSegments, Join;
    SplitSides(a, '/', path);
    SplitSides(a', '/', path);
    CleanGoesOn(Split(a, '/'), Split(a', '/'), Split(path, '/'));
  }

  /** A segment may be looked at as the end of the directory. */
  lemma ShiftSegment(dir: string, front: string, path: string)
    ensures Absolute(dir, front + "/" + path) == Absolute(dir + "/" + front, path)
  {
    assert dir + "/" + (front + "/" + path) == dir + "/" + front + "/" + path;
  }

  /** A dot or an empty segment changes nothing; a double dot takes back the segment before it,
      and nothing in the root directory. */
  lemma DotsVanish(dir: string, last: string, path: string)
    requires IsPlain(last)
    ensures Absolute(dir, "./" + path) == Absolute(dir, "/" + path) == Absolute(dir, path)
    ensures Absolute(dir + "/" + last, "../" + path) == Absolute(dir, path)
    ensures Absolute("/", "../" + path) == Absolute("/", path)
  {
    hide Split, CleanSegments, Join;
    var parts := Split(dir, '/');
    SegmentAfter(dir, ".");
    SegmentAfter(dir, "");
    SegmentAfter(dir, last);
    SegmentAfter(dir + "/" + last, "..");
    SegmentAfter("/", "..");
    CleanSnoc(parts, ".");
    CleanSnoc(parts, "");
    CleanSnoc(parts, last);
    CleanSnoc(parts + [last], "..");
    RootIsEmpty();
    CleanSnoc(Split("/", '/'), "..");
    SameFront(dir + "/" + ".", dir, path);
    SameFront(dir + "/" + "", dir, path);
    SameFront(dir + "/" + last + "/" + "..", dir, path);
    SameFront("/" + "/" + "..", "/", path);
    ShiftSegment(dir, ".", path);
    ShiftSegment(dir, "", path);
    ShiftSegment(dir + "/" + last, "..", path);
    ShiftSegment("/", "..", path);
    assert "" + "/" + path == "/" + path && "." + "/" + path == "./" + path && ".." + "/" + path == "../" + path;
  }

  /** A slash at the end changes nothing. */
  lemma SlashAtTheEnd(dir: string, path: string)
    ensures Absolute(dir, path + "/") == Absolute(dir, path)
  {
    hide Split, CleanSegments, Join;
    var text := dir + "/" + path;
    SegmentAfter(text, "");
    CleanSnoc(Split(text, '/'), "");
    assert dir + "/" + (path + "/") == text + "/" + "";
  }

  lemma SegmentAfter(dir: string, segment: string)
    requires '/' !in segment
    ensures Split(dir + "/" + segment, '/') == Split(dir, '/') + [segment]
  {
    SplitSides(dir, '/', segment);
    SplitAbsent(segment, '/');
  }

  lemma RootIsEmpty()
    ensures CleanSegments(Split("/", '/')) == []
  {
    hide Split;
    SplitAt("", '/', "");
    SplitAbsent("", '/');
    assert "" + ['/'] + "" == "/";
    CleanSnoc([], "");
    CleanSnoc([""], "");
    assert [""] + [""] == ["", ""] && [] + [""] == [""];
  }

  /** Wherever the process runs, an absolute path is the root or clean behind its first slash. */
  lemma AbsoluteIsClean(dir: string, path: string)
    ensures Absolute(dir, path) == "/" || (Absolute(dir, path)[0] == '/' && IsClean(Absolute(dir, path)[1..]))
  {
    hide Split;
    var parts := Split(dir + "/" + path, '/');
    NoSeparatorInside(dir + "/" + path, '/');
    CleanIsPlain(parts);
    var kept := CleanSegments(parts);
    if kept != [] {
      SplitOfJoin(kept, '/');
      assert ("/" + Join(kept, '/'))[1..] == Join(kept, '/');
    }
  }

  /** A relative "path:line" is normalized to that line of the file behind the working directory. */
  lemma RelativeIsJoined(spec: Spec, dir: string, path: string, line: nat)
    requires IsClean(dir) && IsClean(path) && 0 < line <= MAX_INT
    requires TrimSpace(spec.location) == path + ":" + Itoa(line)
    ensures var file := "/" + dir + "/" + path;
            Normalize(spec, Some("/" + dir))
              == Normalized(Spec(file + ":" + Itoa(line), spec.condition), AtLine(file, line))
    ensures Normalize(spec, Some("/"))
              == Normalized(Spec("/" + path + ":" + Itoa(line), spec.condition), AtLine("/" + path, line))
    ensures Normalize(spec, None) == Invalid(NoWorkingDirectory)
  {
    hide Absolute, Split, Itoa, Atoi, TrimSpace;
    AbsoluteOfClean(dir, path);
    if path == "" || path[0] == '/' {
      RootedIsNotClean(path);
    }
    ParseOfFormat(path, line);
  }

  lemma RootedIsNotClean(path: string)
    requires path == "" || path[0] == '/'
    ensures !IsClean(path)
  {
    hide Split, IndexOf;
    if path == "" {
      SplitAbsent(path, '/');
    } else {
      assert path == "" + ['/'] + path[1..];
      SplitAt("", '/', path[1..]);
    }
    assert !IsPlain(Split(path, '/')[0]);
  }

  /** What a "path:line" is normalized to: a path that begins with a slash stays, and any other is looked for
      in the working directory, which must be known. */
  lemma NormalizeInWords(spec: Spec, workingDir: Option<string>, path: string, digits: string, line: nat)
    requires path != "" && ':' !in digits && Atoi(digits) == Some(line) && line > 0
    requires TrimSpace(spec.location) == path + ":" + digits
    ensures var at := (file: string) => Normalized(Spec(file + ":" + Itoa(line), spec.condition), AtLine(file, line));
            Normalize(spec, workingDir) ==
            if path[0] == '/' then at(path)
            else if workingDir == None then Invalid(NoWorkingDirectory)
            else at(Absolute(workingDir.value, path))
  {
    hide Absolute, Itoa, Atoi, TrimSpace;
    ParseMeans(path, digits, line);
  }

  /** A blank location is refused. */
  lemma BlankIsRefused(spec: Spec, workingDir: Option<string>)
    ensures TrimSpace(spec.location) == "" ==> Normalize(spec, workingDir) == Invalid(EmptyLocation)
  {
    hide TrimSpace, ParseFileLine;
  }
}
