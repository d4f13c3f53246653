/** Which paths are accepted, said in terms of their components. */
module PathMeaning {
  import opened Path

  /** The first component, with its slash, is one of the allowed roots, or there is none. */
  ghost predicate FirstAllowed(s: string) { s == "/" || exists j :: 0 <= j <= |s| && RootUpTo(s, j) }

  ghost predicate RootUpTo(s: string, j: nat)
    requires j <= |s|
  {
    IsComponent(s, 1, j) && s[..j] in ALLOWED_ROOTS
  }

  /** A root is a slash and one component. */
  lemma RootsAreSingle(root: string)
    requires root in ALLOWED_ROOTS
    ensures |root| > 1 && root[0] == '/' && '/' !in root[1..]
  {
  }

  lemma AllowedIffFirst(s: string)
    requires s != [] && s[0] == '/'
    ensures AllowedRoot(s) <==> FirstAllowed(s)
  {
    if AllowedRoot(s) && s != "/" {
      var root :| root in ALLOWED_ROOTS && Under(s, root);
      RootsAreSingle(root);
      assert s[1..|root|] == root[1..];
      assert RootUpTo(s, |root|);
    }
    if FirstAllowed(s) && s != "/" {
      var j :| 0 <= j <= |s| && RootUpTo(s, j);
      assert Under(s, s[..j]);
    }
  }

  /** A path under an allowed root climbs exactly when one of its components is the parent, or a dot stands before another. */
  lemma ClimbsIff(s: string)
    requires AllowedRoot(s)
    ensures Climbs(s) <==> !NamesOnly(s)
  {
    ClimbsUnlessNamesOnly(s);
    DotIsNoRoot();
    if Climbs(s) { ClimbingHasComponent(s); }
  }

  lemma ClimbingHasComponent(s: string)
    requires Climbs(s)
    ensures !NamesOnly(s) || s == "/."
  {
    if Contains(s, "/../") {
      var i: nat :| i <= |s| && At(s, i, "/../");
      ParentWithin(s, i);
    } else if Contains(s, "/./") {
      var i: nat :| i <= |s| && At(s, i, "/./");
      DotWithin(s, i);
    } else if EndsWith(s, "/..") {
      ParentAtEnd(s);
    }
  }

  /** The characters of a part of a path. */
  lemma Characters(s: string, i: nat, sub: string, k: nat)
    requires At(s, i, sub) && k < |sub|
    ensures s[i + k] == sub[k]
  {
    assert s[i..i + |sub|][k] == s[i + k];
  }

  lemma ParentWithin(s: string, i: nat)
    requires At(s, i, "/../")
    ensures IsComponent(s, i + 1, i + 3) && s[i + 1..i + 3] == ".."
  {
    Characters(s, i, "/../", 0);
    Characters(s, i, "/../", 1);
    Characters(s, i, "/../", 2);
    Characters(s, i, "/../", 3);
    assert s[i + 1..i + 3] == "..";
  }

  lemma DotWithin(s: string, i: nat)
    requires At(s, i, "/./")
    ensures IsComponent(s, i + 1, i + 2) && s[i + 1..i + 2] == "."
  {
    Characters(s, i, "/./", 0);
    Characters(s, i, "/./", 1);
    Characters(s, i, "/./", 2);
    assert s[i + 1..i + 2] == ".";
  }

  lemma ParentAtEnd(s: string)
    requires EndsWith(s, "/..")
    ensures IsComponent(s, |s| - 2, |s|) && s[|s| - 2..|s|] == ".."
  {
    var i := |s| - 3;
    assert s[i..] == s[i..i + 3];
    Characters(s, i, "/..", 0);
    Characters(s, i, "/..", 1);
    Characters(s, i, "/..", 2);
    assert s[i + 1..|s|] == "..";
  }

  lemma DotIsNoRoot()
    ensures !AllowedRoot("/.")
  {
    forall root | root in ALLOWED_ROOTS ensures !Under("/.", root) {
      assert |root| > 2;
    }
  }

  /** A path is accepted exactly when, without the blanks at its end, it is empty, or absolute, short enough and free of forbidden
      characters, and its components, doubled and trailing slashes apart, begin with an allowed root and hold neither the parent
      nor, but at the very end, a dot; and what is written out is that canonical form. */
  lemma AcceptedIff(input: CString, outputSize: nat)
    ensures var t, r := Trimmed(input), Normalized(input, outputSize);
            && (r.Some? <==>
                  if t == [] then outputSize >= 2
                  else
                    && t[0] == '/' && |t| < outputSize && |t| <= MAX_PATH_LEN && (forall c :: c in t ==> !Forbidden(c))
                    && FirstAllowed(Canonical(t)) && NamesOnly(Canonical(t)))
            && (r.Some? ==> r.value == if t == [] then "/" else Canonical(t))
  {
    hide Climbs, AllowedRoot, Canonical, NamesOnly, Forbidden, FirstAllowed, Trimmed;
    var t := Trimmed(input);
    if t != [] && t[0] == '/' {
      CanonicalHasForm(t);
      AllowedIffFirst(Canonical(t));
      if AllowedRoot(Canonical(t)) { ClimbsIff(Canonical(t)); }
    }
  }
}
