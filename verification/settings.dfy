/** `impl From<Opt> for Settings` (src/main.rs:141-186): the frozen run
    configuration, in particular the extension allow-list and the set of
    directory names the walker prunes. */
module Settings {
  import opened Wrappers

  type U32 = x: nat | x < 0x1_0000_0000

  const DefaultExtensions: seq<string> := [
    ".sh", ".js", ".tcl", ".pl", ".py", ".rb", ".c", ".cpp", ".h", ".rc", ".rci", ".dlg",
    ".pas", ".dpr", ".cs", ".rs"
  ]

  const DefaultIgnoreDirs: seq<string> := [".hg", ".svn", ".git", ".bzr", "node_modules", "target"]

  /** The parsed command line, as far as the core reads it. */
  datatype Options = Options(
    listing: bool,
    html: bool,
    ranking: U32,
    noSummary: bool,
    noDistrib: bool,
    extensions: seq<string>,
    ignoreDirs: seq<string>,
    humanReadable: bool,
    utf8: bool)

  /** The resolved configuration (the root path is left out). */
  datatype Config = Config(
    listing: bool,
    html: bool,
    ranking: U32,
    summary: bool,
    distribution: bool,
    extensions: set<string>,
    ignoreDirs: set<string>,
    humanReadable: bool,
    utf8: bool)

  /** `&ext[1..]` succeeds exactly when byte 1 is a char boundary, that is when
      the entry is non-empty and its first character is ASCII (one UTF-8 byte).
      Otherwise the slice panics. */
  predicate CanCutFirst(e: string) {
    |e| > 0 && e[0] as int < 0x80
  }

  /** Every entry with its first character cut, up to the first entry that
      cannot be cut; the panic carries that entry. */
  function CutAll(es: seq<string>): (r: Result<seq<string>, string>)
    ensures r.Ok? <==> forall e :: e in es ==> CanCutFirst(e)
    ensures r.Ok? ==> |r.value| == |es| && forall i :: 0 <= i < |es| ==> |es[i]| > 0 && r.value[i] == es[i][1..]
    ensures r.Err? ==> r.error in es && !CanCutFirst(r.error)
  {
    if |es| == 0 then Ok([])
    else if !CanCutFirst(es[0]) then Err(es[0])
    else
      match CutAll(es[1..])
      case Err(e) => Err(e)
      case Ok(rest) => Ok([es[0][1..]] + rest)
  }

  function Elements<T>(s: seq<T>): set<T> {
    set x | x in s
  }

  lemma DefaultsCuttable()
    ensures forall e :: e in DefaultExtensions ==> CanCutFirst(e)
  {
  }

  /** The allow-list built from `defaults` and the user's entries: each with its
      first character (the dot) cut off. The two branches of the source give
      the same set when the user list is empty. */
  function AllowList(defaults: seq<string>, user: seq<string>): (r: Result<set<string>, string>)
    requires forall e :: e in defaults ==> CanCutFirst(e)
    ensures r.Ok? <==> forall e :: e in user ==> CanCutFirst(e)
    ensures r.Ok? ==> r.value == set e | e in defaults + user && |e| > 0 :: e[1..]
    ensures r.Err? ==> r.error in user && !CanCutFirst(r.error)
  {
    var all := if |user| == 0 then defaults else defaults + user;
    assert all == defaults + user;
    match CutAll(all)
    case Err(e) => Err(e)
    case Ok(cut) =>
      CutElements(all, cut);
      Ok(Elements(cut))
  }

  /** The configured extension allow-list (src/main.rs:165-173). */
  function ExtensionSet(user: seq<string>): (r: Result<set<string>, string>)
    ensures r.Ok? <==> forall e :: e in user ==> CanCutFirst(e)
    ensures r.Ok? ==> r.value == set e | e in DefaultExtensions + user && |e| > 0 :: e[1..]
    ensures r.Err? ==> r.error in user && !CanCutFirst(r.error)
  {
    DefaultsCuttable();
    AllowList(DefaultExtensions, user)
  }

  /** Once an entry panics, later entries are never reached. */
  lemma CutAllStopsAtFirstPanic(es: seq<string>, more: seq<string>)
    requires CutAll(es).Err?
    ensures CutAll(es + more) == CutAll(es)
  {
    assert (es + more)[0] == es[0];
    if CanCutFirst(es[0]) {
      assert (es + more)[1..] == es[1..] + more;
      CutAllStopsAtFirstPanic(es[1..], more);
    }
  }

  /** The set of cut entries is the image of the entries under `e[1..]`. */
  lemma CutElements(all: seq<string>, cut: seq<string>)
    requires |cut| == |all|
    requires forall i :: 0 <= i < |all| ==> |all[i]| > 0 && cut[i] == all[i][1..]
    ensures Elements(cut) == set e | e in all && |e| > 0 :: e[1..]
  {
    var image := set e | e in all && |e| > 0 :: e[1..];
    forall x | x in Elements(cut)
      ensures x in image
    {
      var i :| 0 <= i < |cut| && cut[i] == x;
      assert all[i] in all;
    }
    forall e | e in all && |e| > 0
      ensures e[1..] in Elements(cut)
    {
      var i :| 0 <= i < |all| && all[i] == e;
      assert cut[i] in cut;
    }
  }

  /** The ignore-directory set: the defaults and the user entries, verbatim. */
  function IgnoreDirSet(user: seq<string>): (r: set<string>)
    ensures forall d :: d in r <==> d in DefaultIgnoreDirs || d in user
  {
    if |user| == 0 then Elements(DefaultIgnoreDirs) else Elements(DefaultIgnoreDirs + user)
  }

  /** `Settings::from`: fails only when an extension entry cannot be cut; the
      plain flags are copied as given. */
  function FromOptions(o: Options): (r: Result<Config, string>)
    ensures r.Ok? <==> forall e :: e in o.extensions ==> CanCutFirst(e)
    ensures r.Ok? ==>
      && r.value.extensions == ExtensionSet(o.extensions).value
      && (forall d :: d in r.value.ignoreDirs <==> d in DefaultIgnoreDirs || d in o.ignoreDirs)
      && r.value.summary == !o.noSummary
      && r.value.distribution == !o.noDistrib
      && r.value.ranking == o.ranking
      && r.value.listing == o.listing
      && r.value.html == o.html
      && r.value.humanReadable == o.humanReadable
      && r.value.utf8 == o.utf8
  {
    match ExtensionSet(o.extensions)
    case Err(e) => Err(e)
    case Ok(exts) =>
      Ok(Config(o.listing, o.html, o.ranking, !o.noSummary, !o.noDistrib, exts,
                IgnoreDirSet(o.ignoreDirs), o.humanReadable, o.utf8))
  }

  /** A user entry can add to the allow-list but never remove a default. */
  lemma AllowListKeepsDefaults(defaults: seq<string>, user: seq<string>)
    requires forall e :: e in defaults ==> CanCutFirst(e)
    requires AllowList(defaults, user).Ok?
    ensures forall e :: e in defaults ==> e[1..] in AllowList(defaults, user).value
    ensures forall e :: e in user ==> e[1..] in AllowList(defaults, user).value
  {
    var all := defaults + user;
    forall e | e in defaults
      ensures e[1..] in AllowList(defaults, user).value
    {
      assert e in all;
    }
    forall e | e in user
      ensures e[1..] in AllowList(defaults, user).value
    {
      assert e in all;
    }
  }

  lemma DefaultsKept(user: seq<string>)
    requires ExtensionSet(user).Ok?
    ensures forall e :: e in DefaultExtensions ==> e[1..] in ExtensionSet(user).value
    ensures forall e :: e in user ==> e[1..] in ExtensionSet(user).value
    ensures forall d :: d in DefaultIgnoreDirs ==> d in IgnoreDirSet(user)
  {
    DefaultsCuttable();
    AllowListKeepsDefaults(DefaultExtensions, user);
  }

  /** Every default extension is written with its leading dot. */
  lemma DefaultsDotted()
    ensures forall e :: e in DefaultExtensions ==> |e| > 0 && e[0] == '.'
  {
    forall e | e in DefaultExtensions
      ensures |e| > 0 && e[0] == '.'
    {
      var k :| 0 <= k < |DefaultExtensions| && DefaultExtensions[k] == e;
    }
  }

  lemma DotSplit(e: string)
    requires |e| > 0 && e[0] == '.'
    ensures "." + e[1..] == e
  {
  }

  /** With dotted defaults and no user entries, a name is allowed exactly
      when its dotted form is a default. */
  lemma AllowListDotted(defaults: seq<string>)
    requires forall e :: e in defaults ==> |e| > 0 && e[0] == '.'
    ensures AllowList(defaults, []).Ok?
    ensures forall x :: x in AllowList(defaults, []).value <==> "." + x in defaults
  {
    var v := AllowList(defaults, []).value;
    assert defaults + [] == defaults;
    forall x
      ensures x in v <==> "." + x in defaults
    {
      if x in v {
        var e :| e in defaults && |e| > 0 && x == e[1..];
        DotSplit(e);
      }
      if "." + x in defaults {
        assert ("." + x)[1..] == x;
      }
    }
  }

  /** Without user entries the allow-list holds exactly the default
      extensions without their dot. */
  lemma DefaultExtensionNames()
    ensures ExtensionSet([]).Ok?
    ensures forall x :: x in ExtensionSet([]).value <==> "." + x in DefaultExtensions
  {
    DefaultsDotted();
    AllowListDotted(DefaultExtensions);
  }

  /** Repeating an entry changes nothing: the allow-list is a set. */
  lemma AllowListDuplicates(defaults: seq<string>, user: seq<string>, e: string)
    requires forall e :: e in defaults ==> CanCutFirst(e)
    requires e in user
    ensures AllowList(defaults, user + [e]) == AllowList(defaults, user)
  {
    var a := defaults + user;
    var b := defaults + (user + [e]);
    assert forall x :: x in b <==> x in a;
    assert b == a + [e];
    if AllowList(defaults, user).Err? {
      CutAllStopsAtFirstPanic(a, [e]);
    } else {
      var sa := set x | x in a && |x| > 0 :: x[1..];
      var sb := set x | x in b && |x| > 0 :: x[1..];
      assert sa == sb;
    }
  }

  lemma DuplicatesCollapse(user: seq<string>, e: string)
    requires e in user
    ensures ExtensionSet(user + [e]) == ExtensionSet(user)
    ensures IgnoreDirSet(user + [e]) == IgnoreDirSet(user)
  {
    DefaultsCuttable();
    AllowListDuplicates(DefaultExtensions, user, e);
  }
}
