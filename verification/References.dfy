/** From a directive body to the paths it could name, and the in-memory resolver. */
module References {
  import opened Common
  import Numbers

  // ----- what a directive names -----

  /** The value of a directive: a scalar, a null, an object with an optional `path` key, or anything else. */
  datatype Body =
    | Text(text: string)
    | Numeric(number: Numbers.Number)
    | Flag(flag: bool)
    | Nothing
    | Other
    | Spec(path: Option<Body>)

  function Coerce(body: Body): Option<string> {
    match body
    case Text(text) => Some(text)
    case Numeric(number) => Some(Numbers.FormatNumber(number))
    case Flag(flag) => Some(if flag then "true" else "false")
    case _ => None
  }

  function ReferenceOf(body: Body): Option<string> {
    match body
    case Spec(None) => None
    case Spec(Some(path)) => Coerce(path)
    case _ => Coerce(body)
  }

  // ----- path helpers -----

  datatype PathSpec = PathSpec(kind: string, path: Option<string>, full: Option<string>, base: string, abs: bool)

  datatype Resolution = Resolution(spec: PathSpec, src: Option<string>, found: bool, search: seq<string>) {
    function FullPath(): string {
      match (spec.full, spec.path)
      case (Some(full), _) => full
      case (None, Some(path)) => path
      case (None, None) => "no-path"
    }
  }

  function NotFound(spec: PathSpec, search: seq<string>): Resolution {
    Resolution(spec, None, false, search)
  }

  /** A source found at `full`: the spec takes that path and its kind. */
  function FoundAt(spec: PathSpec, full: string, src: string, search: seq<string>): Resolution {
    Resolution(spec.(full := Some(full), kind := ExtKind(Some(full))), Some(src), true, search)
  }

  predicate IsSeparator(c: char) { c == '/' || c == '\\' }

  /** How much of `s` runs up to and including its last separator. */
  function FolderLength(s: string): (n: nat)
    ensures n <= |s| && (forall i :: n <= i < |s| ==> !IsSeparator(s[i]))
    ensures n > 0 ==> IsSeparator(s[n - 1])
  {
    if s == "" || IsSeparator(s[|s| - 1]) then |s| else FolderLength(s[..|s| - 1])
  }

  function LastSegment(path: string): string {
    path[FolderLength(path)..]
  }

  /** The characters after the last dot, when there is one. */
  function AfterLastDot(s: string): Option<string> {
    if s == "" then None
    else if s[|s| - 1] == '.' then Some("")
    else match AfterLastDot(s[..|s| - 1])
      case None => None
      case Some(ext) => Some(ext + [s[|s| - 1]])
  }

  /** The extension of the last segment, or the empty kind. */
  function ExtKind(full: Option<string>): string {
    match full
    case None => ""
    case Some(path) => match AfterLastDot(LastSegment(path)) case None => "" case Some(ext) => ext
  }

  function ResolvePathSpec(reference: Option<string>, base: string): PathSpec {
    var abs := reference.Some? && reference.value != "" && IsSeparator(reference.value[0]);
    var full :=
      if reference.None? || reference.value == "" then None
      else if abs || base == "" then reference
      else Some(base + "/" + reference.value);
    PathSpec(ExtKind(full), reference, full, base, abs)
  }

  function Suffixed(stem: string, exts: seq<string>): seq<string> {
    seq(|exts|, i requires 0 <= i < |exts| => stem + exts[i])
  }

  /** Every path a reference could name, in the order they are tried. */
  function Potentials(full: string, exts: seq<string>): seq<string> {
    var segment := LastSegment(full);
    if full == "" then []
    else if '.' in segment then [full]
    else
      [full] + Suffixed(full, exts) + Suffixed(full + "/index", exts) +
      if segment == "" then [] else Suffixed(full + "/index." + segment, exts)
  }

  method BuildPotentials(full: string, exts: seq<string>) returns (potentials: seq<string>)
    ensures potentials == Potentials(full, exts)
  {
    if full == "" {
      return [];
    }
    potentials := [full];
    var segment := LastSegment(full);
    if '.' in segment {
      return;
    }
    potentials := PushSuffixed(potentials, full, exts);
    potentials := PushSuffixed(potentials, full + "/index", exts);
    if segment != "" && segment != "." {
      potentials := PushSuffixed(potentials, full + "/index." + segment, exts);
    }
  }

  method PushSuffixed(before: seq<string>, stem: string, exts: seq<string>) returns (potentials: seq<string>)
    ensures potentials == before + Suffixed(stem, exts)
  {
    potentials := before;
    for i := 0 to |exts|
      invariant potentials == before + Suffixed(stem, exts)[..i]
    {
      potentials := potentials + [stem + exts[i]];
    }
  }

  function TrimSeparators(s: string): string {
    if s != "" && IsSeparator(s[|s| - 1]) then TrimSeparators(s[..|s| - 1]) else s
  }

  /** The folder a relative reference inside `path` resolves against. */
  function SourceDir(path: string): string {
    var trimmed := TrimSeparators(path);
    var n := FolderLength(trimmed);
    if n == 0 then "" else if n == 1 then trimmed[..1] else trimmed[..n - 1]
  }

  lemma {:induction false} TrimmedShape(s: string)
    ensures TrimSeparators(s) <= s && (TrimSeparators(s) == s <==> s == "" || !IsSeparator(s[|s| - 1]))
    ensures TrimSeparators(s) != "" ==> !IsSeparator(TrimSeparators(s)[|TrimSeparators(s)| - 1])
  {
    if s != "" && IsSeparator(s[|s| - 1]) {
      TrimmedShape(s[..|s| - 1]);
    }
  }

  /** What a nested reference resolves against: its source's folder, or the configured base. */
  function BaseFor(isFile: string -> bool, dir: string -> string, current: Option<string>, configured: string): string {
    var raw := if current.Some? then current.value else configured;
    if raw == "" then "" else if isFile(raw) then dir(raw) else raw
  }

  // ----- the in-memory resolver -----

  /** The first candidate that `load` serves. */
  function FirstLoaded(load: string -> Option<string>, candidates: seq<string>): (r: Option<string>)
    ensures r.Some? ==> r.value in candidates && load(r.value).Some?
    ensures r.None? ==> forall c :: c in candidates ==> load(c).None?
  {
    if candidates == [] then None
    else if load(candidates[0]).Some? then Some(candidates[0])
    else FirstLoaded(load, candidates[1..])
  }

  /** What is returned loads and nothing before it does; nothing is returned only if nothing loads. */
  lemma {:induction false} FirstIsFirst(load: string -> Option<string>, candidates: seq<string>) returns (n: nat)
    ensures n <= |candidates| && forall i :: 0 <= i < n ==> load(candidates[i]).None?
    ensures FirstLoaded(load, candidates) == if n == |candidates| then None else Some(candidates[n])
    ensures n < |candidates| ==> load(candidates[n]).Some?
    decreases |candidates|
  {
    n := 0;
    if candidates != [] && load(candidates[0]).None? {
      var m := FirstIsFirst(load, candidates[1..]);
      n := m + 1;
      forall i | 0 <= i < n ensures load(candidates[i]).None? {
        assert i > 0 ==> candidates[i] == candidates[1..][i - 1];
      }
    }
  }

  datatype MapResolver = MapResolver(files: map<string, string>, exts: seq<string>, base: string)
  {
    function Load(): string -> Option<string> {
      path => if path in files then Some(files[path]) else None
    }

    /** The Rust port reduces the path that holds the reference to its folder when that path is a key. */
    function Resolve(current: Option<string>, reference: Option<string>): Resolution {
      ResolveFrom(BaseFor(path => path in files, SourceDir, current, base), reference)
    }

    function ResolveFrom(from: string, reference: Option<string>): Resolution {
      var spec := ResolvePathSpec(reference, from);
      if spec.full.None? then NotFound(spec, [])
      else
        var potentials := if spec.kind == "" then Potentials(spec.full.value, exts) else [spec.full.value];
        match FirstLoaded(Load(), potentials)
        case Some(hit) => FoundAt(spec, hit, files[hit], potentials)
        case None => NotFound(spec, potentials)
    }

    method ResolveByLoop(current: Option<string>, reference: Option<string>) returns (r: Resolution)
      ensures r == Resolve(current, reference)
    {
      var spec := ResolvePathSpec(reference, BaseFor(path => path in files, SourceDir, current, base));
      if spec.full.None? {
        return NotFound(spec, []);
      }
      var potentials := [spec.full.value];
      if spec.kind == "" {
        potentials := BuildPotentials(spec.full.value, exts);
      }
      for i := 0 to |potentials|
        invariant FirstLoaded(Load(), potentials) == FirstLoaded(Load(), potentials[i..])
      {
        var candidate := potentials[i];
        if candidate in files {
          return FoundAt(spec, candidate, files[candidate], potentials);
        }
      }
      return NotFound(spec, potentials);
    }
  }
}
