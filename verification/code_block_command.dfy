/** The install-command widget: one optional command per package manager,
    each rewritten to point at the configured registry, a tab for every
    manager that has a command, and a copy button for the selected tab.
    The clipboard write and the "copied" timer are left out; `CopyCommand`
    yields the text that would be written, or `None` for the early return. */
module CodeBlockCommand {
  import opened Wrappers
  import opened Strings
  import opened RegistryUrl

  datatype Manager = Npm | Yarn | Pnpm | Bun

  /** The key order of the `tabs` object, which is the order of its entries. */
  const Managers: seq<Manager> := [Npm, Yarn, Pnpm, Bun]

  /** The selected manager before the user picks a tab. */
  const DefaultManager: Manager := Npm

  /** The `__npm__`, `__yarn__`, `__pnpm__`, `__bun__` props. */
  datatype Commands = Commands(npm: Option<string>, yarn: Option<string>, pnpm: Option<string>, bun: Option<string>) {
    function Get(m: Manager): Option<string> {
      match m
      case Npm => npm
      case Yarn => yarn
      case Pnpm => pnpm
      case Bun => bun
    }
  }

  /** `replaceUrl`: the first occurrence of the local registry URL is
      replaced by the configured one; an absent command stays absent. */
  function ReplaceUrl(command: Option<string>, registryUrl: string): (r: Option<string>)
    ensures r.None? <==> command.None?
    ensures command.Some? && (forall j :: !OccursAt(command.value, LocalRegistry, j)) ==> r == command
    ensures command.Some? && '$' !in registryUrl ==>
      forall i: nat :: FirstOccurrence(command.value, LocalRegistry, i) ==>
        r == Some(command.value[..i] + registryUrl + command.value[i + |LocalRegistry|..])
  {
    match command
    case None => None
    case Some(c) =>
      ReplaceFirstLeftmost(c, LocalRegistry, registryUrl);
      Some(ReplaceFirst(c, LocalRegistry, registryUrl))
  }

  /** The memoised `tabs` object. */
  function Tabs(props: Commands, env: Option<string>): (tabs: Commands)
    ensures forall m :: tabs.Get(m) == ReplaceUrl(props.Get(m), GetRegistryUrl(env))
  {
    var url := GetRegistryUrl(env);
    Commands(ReplaceUrl(props.npm, url), ReplaceUrl(props.yarn, url),
             ReplaceUrl(props.pnpm, url), ReplaceUrl(props.bun, url))
  }

  /** The `Object.entries(tabs)` pairs, over the keys `ms`, whose value is
      truthy; both the trigger list and the content list are built from it. */
  function VisibleIn(tabs: Commands, ms: seq<Manager>): seq<(Manager, string)> {
    if |ms| == 0 then []
    else
      var c := tabs.Get(ms[0]);
      (if Truthy(c) then [(ms[0], c.value)] else []) + VisibleIn(tabs, ms[1..])
  }

  /** The rendered tabs: a trigger and a content panel per entry. */
  function VisibleTabs(tabs: Commands): seq<(Manager, string)> {
    VisibleIn(tabs, Managers)
  }

  /** `copyCommand`: the command of the selected tab, or `None` when it is
      missing or empty (the early return). */
  function CopyCommand(tabs: Commands, selected: Manager): Option<string> {
    var command := tabs.Get(selected);
    if !Truthy(command) then None else command
  }

  function Position(m: Manager): nat {
    match m
    case Npm => 0
    case Yarn => 1
    case Pnpm => 2
    case Bun => 3
  }

  predicate Ascending(ms: seq<Manager>) {
    forall k, l :: 0 <= k < l < |ms| ==> Position(ms[k]) < Position(ms[l])
  }

  function Keys(entries: seq<(Manager, string)>): seq<Manager> {
    seq(|entries|, k requires 0 <= k < |entries| => entries[k].0)
  }

  lemma {:induction false} VisibleInMembers(tabs: Commands, ms: seq<Manager>, m: Manager, c: string)
    ensures (m, c) in VisibleIn(tabs, ms) <==> m in ms && tabs.Get(m) == Some(c) && c != ""
  {
    if |ms| > 0 {
      VisibleInMembers(tabs, ms[1..], m, c);
      assert m in ms <==> m == ms[0] || m in ms[1..] by {
        assert ms == [ms[0]] + ms[1..];
      }
    }
  }

  lemma {:induction false} VisibleInAscending(tabs: Commands, ms: seq<Manager>)
    requires Ascending(ms)
    ensures Ascending(Keys(VisibleIn(tabs, ms)))
  {
    if |ms| > 0 {
      var rest := VisibleIn(tabs, ms[1..]);
      VisibleInAscending(tabs, ms[1..]);
      if Truthy(tabs.Get(ms[0])) {
        var r := VisibleIn(tabs, ms);
        assert r == [(ms[0], tabs.Get(ms[0]).value)] + rest;
        forall l | 0 <= l < |rest|
          ensures Position(ms[0]) < Position(rest[l].0)
        {
          VisibleInMembers(tabs, ms[1..], rest[l].0, rest[l].1);
          assert rest[l] in rest;
          var q :| 1 <= q < |ms| && ms[q] == rest[l].0;
        }
        forall k, l | 0 <= k < l < |r|
          ensures Position(Keys(r)[k]) < Position(Keys(r)[l])
        {
          assert Keys(r)[l] == rest[l - 1].0;
          if k > 0 {
            assert Keys(r)[k] == rest[k - 1].0;
            assert Keys(rest)[k - 1] == rest[k - 1].0 && Keys(rest)[l - 1] == rest[l - 1].0;
          }
        }
      } else {
        assert VisibleIn(tabs, ms) == rest;
      }
    }
  }

  /** A manager gets a tab trigger and a content panel exactly when its
      rewritten command is truthy; each tab shows its manager's command;
      and the tabs keep the npm, yarn, pnpm, bun order. */
  lemma VisibleTabsSpec(tabs: Commands, m: Manager)
    ensures m in Keys(VisibleTabs(tabs)) <==> Truthy(tabs.Get(m))
    ensures forall e :: e in VisibleTabs(tabs) ==> tabs.Get(e.0) == Some(e.1)
    ensures Ascending(Keys(VisibleTabs(tabs)))
  {
    var r := VisibleTabs(tabs);
    forall e | e in r
      ensures tabs.Get(e.0) == Some(e.1) && e.1 != ""
    {
      VisibleInMembers(tabs, Managers, e.0, e.1);
    }
    if m in Keys(r) {
      var k :| 0 <= k < |r| && Keys(r)[k] == m;
      assert r[k] in r;
    }
    if Truthy(tabs.Get(m)) {
      VisibleInMembers(tabs, Managers, m, tabs.Get(m).value);
      assert m in Managers by {
        assert Managers[Position(m)] == m;
      }
      var k :| 0 <= k < |r| && r[k] == (m, tabs.Get(m).value);
      assert Keys(r)[k] == m;
    }
    VisibleInAscending(tabs, Managers);
  }

  /** Copying does something exactly when the selected manager has a tab,
      and then copies that tab's command. In particular, with no npm
      command the default selection copies nothing. */
  lemma CopyMatchesTabs(tabs: Commands, selected: Manager)
    ensures CopyCommand(tabs, selected).Some? <==> selected in Keys(VisibleTabs(tabs))
    ensures CopyCommand(tabs, selected).Some? ==> CopyCommand(tabs, selected) == tabs.Get(selected)
    ensures !Truthy(tabs.Get(DefaultManager)) ==> CopyCommand(tabs, DefaultManager) == None
  {
    VisibleTabsSpec(tabs, selected);
  }

  /** With a registry URL free of `$` (which `replace` would expand), a
      manager has a tab exactly when its prop is a non-empty string. */
  lemma TabShownIffProvided(props: Commands, env: Option<string>, m: Manager)
    requires '$' !in GetRegistryUrl(env)
    ensures Truthy(Tabs(props, env).Get(m)) <==> Truthy(props.Get(m))
  {
    var c := props.Get(m);
    if c.Some? {
      var url := GetRegistryUrl(env);
      var i := IndexFrom(c.value, LocalRegistry, 0);
      if i.Some? {
        ReplaceFirstAt(c.value, LocalRegistry, url, i.value);
      }
    }
  }

  /** The local registry URL does not occur inside the command prefix. */
  lemma NoLocalRegistryInPrefix(cmd: string)
    requires StartsWith(cmd, InstallPrefix)
    ensures forall j :: 0 <= j < |InstallPrefix| ==> !OccursAt(cmd, LocalRegistry, j)
  {
    forall j | 0 <= j < |InstallPrefix|
      ensures !OccursAt(cmd, LocalRegistry, j)
    {
      assert cmd[j] == cmd[..|InstallPrefix|][j] == InstallPrefix[j];
      if j + 1 < |InstallPrefix| {
        assert cmd[j + 1] == cmd[..|InstallPrefix|][j + 1] == InstallPrefix[j + 1];
      }
      if j + |LocalRegistry| <= |cmd| {
        assert cmd[j..j + |LocalRegistry|][0] == cmd[j];
        assert cmd[j..j + |LocalRegistry|][1] == cmd[j + 1];
      }
    }
  }

  /** Replacing a pattern whose first occurrence follows `head` swaps it
      for the replacement text. */
  lemma ReplaceAfterHead(head: string, pat: string, rest: string, rep: string)
    requires forall j :: 0 <= j < |head| ==> !OccursAt(head + pat + rest, pat, j)
    requires '$' !in rep
    ensures ReplaceFirst(head + pat + rest, pat, rep) == head + rep + rest
  {
    var s := head + pat + rest;
    assert s[|head|..|head| + |pat|] == pat;
    ReplaceFirstAt(s, pat, rep, |head|);
    assert s[..|head|] == head;
    assert s[|head| + |pat|..] == rest;
  }

  /** Rewriting the default install command is the same as building it
      against the configured registry, provided the URL holds no `$`. */
  lemma RewriteDefaultInstallCommand(env: Option<string>, componentName: string)
    requires '$' !in GetRegistryUrl(env)
    ensures ReplaceUrl(Some(InstallCommand(None, componentName)), GetRegistryUrl(env))
         == Some(InstallCommand(env, componentName))
  {
    var rest := "/r/" + componentName + ManifestSuffix;
    var cmd := InstallPrefix + LocalRegistry + rest;
    assert InstallCommand(None, componentName) == cmd;
    assert InstallCommand(env, componentName) == InstallPrefix + GetRegistryUrl(env) + rest;
    NoLocalRegistryInPrefix(cmd);
    ReplaceAfterHead(InstallPrefix, LocalRegistry, rest, GetRegistryUrl(env));
  }
}
