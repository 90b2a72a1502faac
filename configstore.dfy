/**
 * The pure part of `MatchConfig`: the pattern is anchored at both ends,
 * the directory listing is filtered down to the `*.conf` files, and each
 * of those is known by its name without the suffix. The selection loop is
 * modelled with the directory listing, the regular-expression matcher and
 * the file contents as parameters.
 */
module ConfigStore {
  import opened Results
  import opened GoStrings
  import opened Net
  import opened ConfigModel
  import opened TextDecoder

  /** A `^` in front unless there is one, then a `$` at the end unless there is one. */
  function AnchorPattern(pattern: string): (r: string)
    ensures HasPrefix(r, "^") && HasSuffix(r, "$")
    ensures |pattern| <= |r| <= |pattern| + 2
    ensures OccursAt(r, pattern, if HasPrefix(pattern, "^") then 0 else 1)
    ensures HasPrefix(pattern, "^") && HasSuffix(pattern, "$") ==> r == pattern
  {
    var p := if HasPrefix(pattern, "^") then pattern else "^" + pattern;
    assert p[..1] == "^";
    if HasSuffix(p, "$") then p else p + "$"
  }

  /** Anchoring twice is anchoring once. */
  lemma AnchorPatternIdempotent(pattern: string)
    ensures AnchorPattern(AnchorPattern(pattern)) == AnchorPattern(pattern)
  {
  }

  /** The file-name filter: at least six characters, and the last `.conf` is at the very end. */
  predicate IsConfigFile(name: string) {
    |name| >= 6 && LastIndex(name, ".conf") == |name| - 5
  }

  /** The filter keeps exactly the names that end in `.conf` after at least one other character. */
  lemma IsConfigFileSuffix(name: string)
    ensures IsConfigFile(name) <==> |name| >= 6 && HasSuffix(name, ".conf")
  {
    if |name| >= 6 && HasSuffix(name, ".conf") {
      assert OccursAt(name, ".conf", |name| - 5);
      assert LastIndex(name, ".conf") == LastIndexFrom(name, ".conf", |name| - 5);
    }
    if IsConfigFile(name) {
      assert OccursAt(name, ".conf", |name| - 5);
    }
  }

  /** The interface a configuration file is for: its name without `.conf`. */
  function InterfaceName(name: string): (r: string)
    requires IsConfigFile(name)
    ensures |r| >= 1 && r + ".conf" == name
  {
    IsConfigFileSuffix(name);
    name[..|name| - 5]
  }

  /** Every non-empty interface name has a configuration file, and that file is known by that name. */
  lemma InterfaceNameOfFile(iface: string)
    requires |iface| >= 1
    ensures IsConfigFile(iface + ".conf") && InterfaceName(iface + ".conf") == iface
  {
    var name := iface + ".conf";
    assert name[|name| - 5..] == ".conf";
    IsConfigFileSuffix(name);
  }

  /** Two configuration files for the same interface are the same file. */
  lemma InterfaceNameInjective(a: string, b: string)
    requires IsConfigFile(a) && IsConfigFile(b) && InterfaceName(a) == InterfaceName(b)
    ensures a == b
  {
  }

  /** The directory entries the loop keeps: configuration files whose interface name the anchored pattern matches. */
  predicate Chosen(name: string, pattern: string, matches: (string, string) -> bool) {
    IsConfigFile(name) && matches(AnchorPattern(pattern), InterfaceName(name))
  }

  /** The interfaces the loop selects among the first `n` directory entries. */
  function Selected(files: seq<string>, n: nat, pattern: string, matches: (string, string) -> bool): (r: set<string>)
    requires n <= |files|
  {
    set i | 0 <= i < n && Chosen(files[i], pattern, matches) :: InterfaceName(files[i])
  }

  /** One more directory entry adds its interface, when it is chosen, and nothing else. */
  lemma SelectedNext(files: seq<string>, n: nat, pattern: string, matches: (string, string) -> bool,
                     before: set<string>, after: set<string>)
    requires n < |files| && before == Selected(files, n, pattern, matches)
    requires Chosen(files[n], pattern, matches) ==> after == before + {InterfaceName(files[n])}
    requires !Chosen(files[n], pattern, matches) ==> after == before
    ensures after == Selected(files, n + 1, pattern, matches)
  {
    assert Selected(files, n + 1, pattern, matches) ==
      Selected(files, n, pattern, matches) + (if Chosen(files[n], pattern, matches) then {InterfaceName(files[n])} else {});
  }

  /** Every stored configuration is what its interface's file loads to. */
  ghost predicate Loaded(cfgs: map<string, Config>, load: string -> Result<Config, DecodeError>) {
    forall name | name in cfgs :: |name| >= 1 && load(name + ".conf") == Ok(cfgs[name])
  }

  /** Storing a file's configuration under its interface name keeps every stored configuration what its file loads to. */
  lemma LoadedStore(cfgs: map<string, Config>, load: string -> Result<Config, DecodeError>, file: string, c: Config)
    requires Loaded(cfgs, load) && IsConfigFile(file) && load(file) == Ok(c)
    ensures Loaded(cfgs[InterfaceName(file) := c], load)
  {
  }

  /** Every chosen entry among the first `n` loads. */
  ghost predicate ChosenLoad(files: seq<string>, n: nat, pattern: string, matches: (string, string) -> bool,
                             load: string -> Result<Config, DecodeError>)
    requires n <= |files|
  {
    forall j | 0 <= j < n && Chosen(files[j], pattern, matches) :: load(files[j]).Ok?
  }

  /** One more entry that loads, or is not chosen, keeps every chosen entry loading. */
  lemma ChosenLoadNext(files: seq<string>, n: nat, pattern: string, matches: (string, string) -> bool,
                       load: string -> Result<Config, DecodeError>)
    requires n < |files| && ChosenLoad(files, n, pattern, matches, load)
    requires Chosen(files[n], pattern, matches) ==> load(files[n]).Ok?
    ensures ChosenLoad(files, n + 1, pattern, matches, load)
  {
  }

  /**
   * MatchConfig's loop over the directory listing `files`: each selected
   * file is loaded (`load`: the file read from the configuration directory
   * and decoded by UnmarshalText), and the result is stored under its
   * interface name. A file that does not decode ends the program in the
   * source; here the loop stops with that file's name, the first chosen
   * entry of the listing that does not load.
   */
  method MatchConfig(pattern: string, files: seq<string>, matches: (string, string) -> bool,
                     load: string -> Result<Config, DecodeError>)
    returns (r: Result<map<string, Config>, string>)
    ensures r.Ok? ==> r.value.Keys == Selected(files, |files|, pattern, matches)
    ensures r.Ok? ==> forall name | name in r.value :: |name| >= 1 && load(name + ".conf") == Ok(r.value[name])
    ensures r.Ok? <==> forall i | 0 <= i < |files| && Chosen(files[i], pattern, matches) :: load(files[i]).Ok?
    ensures r.Err? ==> r.error in files && Chosen(r.error, pattern, matches) && load(r.error).Err?
    ensures r.Err? ==> exists i | 0 <= i < |files| :: files[i] == r.error && ChosenLoad(files, i, pattern, matches, load)
  {
    var anchored := AnchorPattern(pattern);
    var cfgs: map<string, Config> := map[];
    var i := 0;
    while i < |files|
      invariant 0 <= i <= |files|
      invariant cfgs.Keys == Selected(files, i, pattern, matches)
      invariant Loaded(cfgs, load)
      invariant ChosenLoad(files, i, pattern, matches, load)
    {
      var file := files[i];
      ghost var before := cfgs;
      if IsConfigFile(file) {
        var iface := InterfaceName(file);
        if matches(anchored, iface) {
          var c := load(file);
          if c.Err? {
            assert files[i] == file && ChosenLoad(files, i, pattern, matches, load);
            return Err(file);
          }
          LoadedStore(cfgs, load, file, c.value);
          cfgs := cfgs[iface := c.value];
        }
      }
      SelectedNext(files, i, pattern, matches, before.Keys, cfgs.Keys);
      ChosenLoadNext(files, i, pattern, matches, load);
      i := i + 1;
    }
    return Ok(cfgs);
  }
}
