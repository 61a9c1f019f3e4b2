/** Who is calling and which projects they may touch (internal/auth/auth.go). */
module Auth {

  datatype Identity = Identity(user: string, projects: seq<string>)

  /** How secrets are stored and compared: a collision-free hash. */
  datatype Digest = Hash(secret: string)

  predicate HasSuffix(s: string, suffix: string) {
    |suffix| <= |s| && s[|s| - |suffix|..] == suffix
  }

  predicate IsNamespaceGrant(grant: string, ns: string) {
    grant == ns + "/*"
  }

  /** A grant names everything, one project, or all projects below a namespace. */
  ghost predicate Covers(grant: string, project: string) {
    || grant == "*"
    || grant == project
    || exists ns :: IsNamespaceGrant(grant, ns) && ns + "/" <= project
  }

  ghost predicate Allows(id: Identity, project: string) {
    project != "" && exists g :: g in id.projects && Covers(g, project)
  }

  /** The suffix and prefix tests find the namespace of a grant. */
  lemma NamespaceTest(grant: string, project: string)
    ensures HasSuffix(grant, "/*") && grant[..|grant| - 1] <= project
      <==> exists ns :: IsNamespaceGrant(grant, ns) && ns + "/" <= project
  {
    if HasSuffix(grant, "/*") {
      var ns := grant[..|grant| - 2];
      assert grant == ns + grant[|grant| - 2..];
      assert grant[..|grant| - 1] == ns + "/";
      assert IsNamespaceGrant(grant, ns);
    }
    if ns :| IsNamespaceGrant(grant, ns) && ns + "/" <= project {
      assert grant[|grant| - 2..] == "/*" && grant[..|grant| - 1] == ns + "/";
    }
  }

  /** What grants cover: a star everything, a namespace with a slash and a star what is below it, and a grant
      without a star only the project of that name. */
  lemma GrantsCover(grant: string, ns: string, project: string)
    ensures Covers("*", project)
    ensures Covers(ns + "/*", project) <==> ns + "/" <= project
    ensures '*' !in grant ==> (Covers(grant, project) <==> grant == project)
  {
    assert IsNamespaceGrant(ns + "/*", ns) && |ns + "/*"| > |"*"|;
    if project == ns + "/*" {
      assert project == (ns + "/") + "*";
    }
    if other :| IsNamespaceGrant(ns + "/*", other) && other + "/" <= project {
      assert other == (other + "/*")[..|ns|] == (ns + "/*")[..|ns|] == ns;
    }
    if other :| IsNamespaceGrant(grant, other) {
      assert grant[|other| + 1] == '*';
    }
    assert grant == "*" ==> grant[0] == '*';
  }

  /** Identity.Allows. */
  method CheckAllows(id: Identity, project: string) returns (ok: bool)
    ensures ok <==> Allows(id, project)
  {
    if project == "" {
      return false;
    }
    for i := 0 to |id.projects|
      invariant forall j :: 0 <= j < i ==> !Covers(id.projects[j], project)
    {
      var p := id.projects[i];
      NamespaceTest(p, project);
      assert p in id.projects;
      if p == "*" || p == project {
        return true;
      } else if HasSuffix(p, "/*") && p[..|p| - 1] <= project {
        return true;
      }
    }
    ok := false;
  }
}
