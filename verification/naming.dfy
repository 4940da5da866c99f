/** The organisation prefix every stored object key starts with: objects of
    the built-in `root` organisation live at the top level, every other
    organisation's under a folder of its own name. */
module Naming {

  const RootOrg := "root"

  /** `'' if org == 'root' else org + '/'` (also written `if not org == 'root': prefix = org + '/'`). */
  function OrgPrefix(org: string): (p: string)
    ensures p == [] <==> org == RootOrg
    ensures p != [] ==> p[|p| - 1] == '/' && p[..|p| - 1] == org
  {
    if org == RootOrg then "" else org + "/"
  }

  /** Distinct organisations never share a prefix, so their keys never collide. */
  lemma OrgPrefixInjective(a: string, b: string)
    requires OrgPrefix(a) == OrgPrefix(b)
    ensures a == b
  {
    if a != RootOrg {
      assert OrgPrefix(a)[..|OrgPrefix(a)| - 1] == a;
    }
  }
}
