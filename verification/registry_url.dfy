/** The registry URL helper and the install command built from it. The
    environment variable NEXT_PUBLIC_REGISTRY_URL is a parameter: `None`
    when it is unset. */
module RegistryUrl {
  import opened Wrappers
  import opened Strings

  /** The development registry, used when no URL is configured. */
  const LocalRegistry: string := "http://localhost:3002"

  const InstallPrefix: string := "npx shadcn@latest add "

  const ManifestSuffix: string := ".json"

  /** `getRegistryUrl()`: the configured URL if it is non-empty, otherwise
      the local registry. */
  function GetRegistryUrl(env: Option<string>): (url: string)
    ensures Truthy(env) ==> url == env.value
    ensures !Truthy(env) ==> url == LocalRegistry
    ensures url != ""
  {
    if !Truthy(env) then LocalRegistry else env.value
  }

  /** `getComponentInstallCommand(componentName)`. */
  function InstallCommand(env: Option<string>, componentName: string): (cmd: string)
    ensures StartsWith(cmd, InstallPrefix)
    ensures EndsWith(cmd, ManifestSuffix)
  {
    InstallPrefix + GetRegistryUrl(env) + "/r/" + componentName + ManifestSuffix
  }

  /** Reads the component name back out of an install command for the
      registry at `url`; `None` when the command does not have that shape. */
  function ComponentOf(cmd: string, url: string): Option<string> {
    var head := InstallPrefix + url + "/r/";
    if StartsWith(cmd, head) && |head| + |ManifestSuffix| <= |cmd| && EndsWith(cmd, ManifestSuffix)
    then Some(cmd[|head|..|cmd| - |ManifestSuffix|])
    else None
  }

  /** The install command names the manifest of exactly the requested
      component under the configured registry. */
  lemma InstallCommandRoundTrip(env: Option<string>, componentName: string)
    ensures ComponentOf(InstallCommand(env, componentName), GetRegistryUrl(env)) == Some(componentName)
  {
    var head := InstallPrefix + GetRegistryUrl(env) + "/r/";
    var cmd := InstallCommand(env, componentName);
    assert cmd == head + componentName + ManifestSuffix;
    assert cmd[..|head|] == head;
    assert cmd[|head|..|cmd| - |ManifestSuffix|] == componentName;
  }

  /** With the variable unset, the command points at the local registry. */
  lemma DefaultInstallCommand(componentName: string)
    ensures InstallCommand(None, componentName)
         == "npx shadcn@latest add http://localhost:3002/r/" + componentName + ".json"
    ensures InstallCommand(Some(""), componentName) == InstallCommand(None, componentName)
  {
  }
}
