/** The runner script's argument handling: `type:pattern[:file]` becomes the
    path of the demo file to run, `<root>/src/<type>/<pattern>/<file>.js`,
    where `<root>` is the parent of the script's directory (`__dirname/..`).
    A path is a sequence of segments. */
module RunPattern {
  import opened Strings

  /** The two usage errors; the script prints its usage text and exits with
      status 1 for both. */
  datatype UsageError = NoArguments | MissingPattern

  datatype Resolution = Usage(error: UsageError) | Resolved(path: seq<string>)

  datatype Option<T> = None | Some(value: T)

  /** The default file and the extension the script insists on. */
  const DefaultFile := "index.js"
  const Extension := ".js"

  /** `typeMap[part] || part`: the shorthand `van` names the `vanilla`
      directory, and every other type passes through unchanged (`react` maps
      to itself). */
  function TypeDirectory(part: string): (dir: string)
    ensures part == "van" ==> dir == "vanilla"
    ensures part != "van" ==> dir == part
  {
    if part == "van" then "vanilla" else if part == "react" then "react" else part
  }

  /** The file part as the script turns it into a file name: an absent or
      empty part (both falsy) means `index.js`; otherwise `.js` is appended
      unless the part already ends with it. */
  function FileName(file: string): (name: string)
    ensures EndsWith(name, Extension)
    ensures file == "" ==> name == DefaultFile
    ensures file != "" && EndsWith(file, Extension) ==> name == file
    ensures file != "" && !EndsWith(file, Extension) ==> name == file + Extension
  {
    if file == "" then DefaultFile
    else if EndsWith(file, Extension) then file
    else
      assert (file + Extension)[|file + Extension| - |Extension|..] == Extension;
      file + Extension
  }

  /** Naming a file with or without its `.js` gives the same file, and a
      resolved name resolves to itself. */
  lemma FileNameIdempotent(file: string)
    ensures FileName(FileName(file)) == FileName(file)
    ensures file != "" && !EndsWith(file, Extension) ==> FileName(file + Extension) == FileName(file)
  {
    if file != "" {
      assert EndsWith(file + Extension, Extension) by {
        assert (file + Extension)[|file + Extension| - |Extension|..] == Extension;
      }
    }
  }

  /** The path the script runs for its command-line arguments, or the usage
      error it stops with. Only the first argument is read; within it, parts
      after the third are ignored. */
  function Resolve(args: seq<string>, root: seq<string>): (r: Resolution)
    ensures r.Usage? <==> |args| == 0 || ':' !in args[0]
    ensures |args| == 0 ==> r == Usage(NoArguments)
    ensures r.Resolved? ==> |r.path| == |root| + 4 && r.path[..|root|] == root
    ensures r.Resolved? ==> r.path[|root|] == "src" && EndsWith(r.path[|root| + 3], Extension)
  {
    if |args| == 0 then Usage(NoArguments)
    else
      var parts := Split(args[0], ':');
      SplitHasTwoPieces(args[0], ':');
      if |parts| < 2 then Usage(MissingPattern)
      else
        var file := if |parts| >= 3 then parts[2] else "";
        Resolved(root + ["src", TypeDirectory(parts[0]), parts[1], FileName(file)])
  }

  /** The argument `type:pattern[:file...]`, as colon-free parts, resolves to
      the type's directory, the pattern and the file name, in that order. */
  lemma ResolveParts(parts: seq<string>, rest: seq<string>, root: seq<string>)
    requires |parts| >= 2
    requires forall i :: 0 <= i < |parts| ==> ':' !in parts[i]
    ensures Resolve([Join(parts, ':')] + rest, root) ==
      Resolved(root + ["src", TypeDirectory(parts[0]), parts[1], FileName(if |parts| >= 3 then parts[2] else "")])
  {
    SplitJoin(parts, ':');
  }

  /** Parts after the third change nothing. */
  lemma ExtraPartsIgnored(parts: seq<string>, root: seq<string>)
    requires |parts| >= 3
    requires forall i :: 0 <= i < |parts| ==> ':' !in parts[i]
    ensures Resolve([Join(parts, ':')], root) == Resolve([Join(parts[..3], ':')], root)
  {
    ResolveParts(parts, [], root);
    ResolveParts(parts[..3], [], root);
  }

  /** The usage example: `van:proxy:validation` runs
      `src/vanilla/proxy/validation.js`. */
  lemma UsageExample(root: seq<string>)
    ensures Resolve(["van:proxy:validation"], root) == Resolved(root + ["src", "vanilla", "proxy", "validation.js"])
  {
    var parts := ["van", "proxy", "validation"];
    assert Join(parts[2..], ':') == "validation";
    assert Join(parts[1..], ':') == "proxy" + [':'] + "validation";
    assert Join(parts, ':') == "van:proxy:validation";
    assert FileName("validation") == "validation.js" by {
      assert !EndsWith("validation", Extension) by {
        assert "validation"[9] != Extension[2];
      }
      assert "validation" + Extension == "validation.js";
    }
    ResolveParts(parts, [], root);
  }

  /** The same argument with `.js` written out runs the same file. */
  lemma UsageExampleWithExtension(root: seq<string>)
    ensures Resolve(["van:proxy:validation.js"], root) == Resolved(root + ["src", "vanilla", "proxy", "validation.js"])
  {
    var parts := ["van", "proxy", "validation.js"];
    assert Join(parts[2..], ':') == "validation.js";
    assert Join(parts[1..], ':') == "proxy" + [':'] + "validation.js";
    assert Join(parts, ':') == "van:proxy:validation.js";
    ResolveParts(parts, [], root);
    assert EndsWith("validation.js", Extension);
  }

  /** Without a file part the pattern's `index.js` runs. */
  lemma DefaultsToIndex(root: seq<string>)
    ensures Resolve(["van:observer"], root) == Resolved(root + ["src", "vanilla", "observer", "index.js"])
    ensures Resolve(["van:observer:"], root) == Resolved(root + ["src", "vanilla", "observer", "index.js"])
  {
    var parts := ["van", "observer"];
    assert Join(parts[1..], ':') == "observer";
    assert Join(parts, ':') == "van:observer";
    ResolveParts(parts, [], root);
    var withEmpty := ["van", "observer", ""];
    assert Join(withEmpty[2..], ':') == "";
    assert Join(withEmpty[1..], ':') == "observer:";
    assert Join(withEmpty, ':') == "van:observer:";
    ResolveParts(withEmpty, [], root);
  }

  /** What `typeMap[part] || part` yields as written: the property lookup
      also finds the members every JavaScript object inherits, which are
      functions or objects and not directory names. `None` stands for such a
      non-string result, on which the later `path.join` throws. */
  function TypeDirectoryAsWritten(part: string): (dir: Option<string>)
    ensures part in InheritedNames ==> dir.None?
  {
    if part == "van" then Some("vanilla")
    else if part == "react" then Some("react")
    else if part in InheritedNames then None
    else Some(part)
  }

  /** Names of the properties of `Object.prototype`. */
  const InheritedNames: set<string> := {
    "constructor", "hasOwnProperty", "isPrototypeOf", "propertyIsEnumerable",
    "toLocaleString", "toString", "valueOf", "__proto__", "__defineGetter__",
    "__defineSetter__", "__lookupGetter__", "__lookupSetter__"
  }

  /** `toString:proxy` names a `toString` directory, but the lookup as
      written yields the inherited `toString` function instead, where the
      intended pass-through yields the type name. */
  lemma InheritedTypeNameNotPassedThrough()
    ensures TypeDirectoryAsWritten("toString").None?
    ensures TypeDirectory("toString") == "toString"
  {
  }
}
