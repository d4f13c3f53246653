/** Path canonicalisation for the storage card: C strings in, absolute paths under the allowed roots out. */
module Path {
  import opened Outcomes

  const MAX_PATH_LEN := 95

  const ALLOWED_ROOTS := [
    "/manifest.json", "/manifest.idx", "/refs", "/packs", "/profile", "/mission", "/cal", "/snapshots", "/traces",
    "/reports", "/logs", "/update", "/factory"]

  /** A C string holds no NUL. */
  type CString = s: string | '\0' !in s

  predicate Blank(c: char) { c == '\r' || c == '\n' || c == ' ' || c == '\t' }

  predicate Forbidden(c: char) { c < 0x20 as char || c == 0x7f as char || c == '\\' || c == ':' }

  // ----- the canonical form -----

  function Trimmed(s: string): string {
    if s != [] && Blank(s[|s| - 1]) then Trimmed(s[..|s| - 1]) else s
  }

  /** Runs of slashes become one slash. */
  function Collapsed(s: string, afterSlash: bool): string {
    if s == [] then []
    else if s[0] == '/' && afterSlash then Collapsed(s[1..], true)
    else [s[0]] + Collapsed(s[1..], s[0] == '/')
  }

  function Stripped(s: string): string {
    if |s| > 1 && s[|s| - 1] == '/' then Stripped(s[..|s| - 1]) else s
  }

  predicate At(s: string, i: nat, sub: string) { i + |sub| <= |s| && s[i..i + |sub|] == sub }

  predicate Contains(s: string, sub: string) {
    exists i: nat | i <= |s| :: At(s, i, sub)
  }

  predicate EndsWith(s: string, sub: string) { |s| >= |sub| && s[|s| - |sub|..] == sub }

  predicate Climbs(s: string) {
    Contains(s, "/../") || Contains(s, "/./") || s == "/.." || s == "/." || EndsWith(s, "/..")
  }

  /** The path is the root, or below it on a component boundary. */
  predicate Under(s: string, root: string) {
    |s| >= |root| && s[..|root|] == root && (|s| == |root| || s[|root|] == '/')
  }

  predicate AllowedRoot(s: string) { s == "/" || exists root | root in ALLOWED_ROOTS :: Under(s, root) }

  function Canonical(trimmed: string): string { Stripped(Collapsed(trimmed, false)) }

  /** The path written out, or None when the input is refused. */
  function Normalized(input: CString, outputSize: nat): Option<CString> {
    var t := Trimmed(input);
    if outputSize == 0 then None
    else if t == [] then (if outputSize < 2 then None else Some("/"))
    else if |t| >= outputSize || |t| > MAX_PATH_LEN then None
    else if t[0] != '/' then None
    else if exists c | c in t :: Forbidden(c) then None
    else if Climbs(Canonical(t)) || !AllowedRoot(Canonical(t)) then None
    else
      CanonicalIsFromInput(input);
      Some(Canonical(t))
  }

  /** Nothing is written out that was not in the input. */
  lemma CanonicalIsFromInput(input: string)
    ensures forall c :: c in Canonical(Trimmed(input)) ==> c in input
  {
    TrimmedIsPrefix(input);
    var t := Trimmed(input);
    CollapsedIsNoLonger(t, false);
    if Collapsed(t, false) != [] { StrippedIsPrefix(Collapsed(t, false)); }
  }

  // ----- the loops -----

  predicate EndsInSlash(s: string) { s != [] && s[|s| - 1] == '/' }

  lemma {:induction false} CollapsedAppend(s: string, afterSlash: bool, c: char)
    ensures Collapsed(s + [c], afterSlash)
         == Collapsed(s, afterSlash) + if c == '/' && (if s == [] then afterSlash else EndsInSlash(s)) then [] else [c]
    decreases |s|
  {
    if s == [] {
      assert [c][1..] == [] && [] + [c] == [c];
    } else {
      assert (s + [c])[1..] == s[1..] + [c];
      CollapsedAppend(s[1..], s[0] == '/', c);
    }
  }

  lemma {:induction false} CollapsedIsNoLonger(s: string, afterSlash: bool)
    ensures |Collapsed(s, afterSlash)| <= |s|
    ensures forall c :: c in Collapsed(s, afterSlash) ==> c in s
  {
    if s != [] {
      CollapsedIsNoLonger(s[1..], true);
      CollapsedIsNoLonger(s[1..], s[0] == '/');
    }
  }

  lemma CollapsedStart(s: string)
    requires s != [] && s[0] == '/'
    ensures Collapsed(s, false) != [] && Collapsed(s, false)[0] == '/'
  {
  }

  /** The loops of the firmware: trim, copy without doubled slashes, strip, check. A null input is refused. */
  method NormalizePath(input: Option<CString>, outputSize: nat) returns (output: Option<CString>)
    ensures output == if input.None? then None else Normalized(input.value, outputSize)
  {
    hide Collapsed, Contains, Forbidden, AllowedRoot, Blank;
    if input.None? || outputSize == 0 {
      return None;
    }
    var text := input.value;
    var inputLen := |text|;
    assert text[..inputLen] == text;
    while inputLen > 0 && Blank(text[inputLen - 1])
      invariant 0 <= inputLen <= |text|
      invariant Trimmed(text[..inputLen]) == Trimmed(text)
    {
      assert text[..inputLen][..inputLen - 1] == text[..inputLen - 1];
      inputLen := inputLen - 1;
    }
    ghost var t := Trimmed(text);
    assert t == text[..inputLen];
    if inputLen == 0 {
      return if outputSize < 2 then None else Some("/");
    }
    if inputLen >= outputSize || inputLen > MAX_PATH_LEN {
      return None;
    }
    if text[0] != '/' {
      return None;
    }
    var copied := CopyCollapsed(text, inputLen);
    if copied.None? {
      return None;
    }
    CollapsedIsNoLonger(t, false);
    CollapsedStart(t);
    var used := |copied.value|;
    assert copied.value[..used] == copied.value;
    while used > 1 && copied.value[used - 1] == '/'
      invariant 1 <= used <= |copied.value|
      invariant Stripped(copied.value[..used]) == Stripped(copied.value)
    {
      assert copied.value[..used][..used - 1] == copied.value[..used - 1];
      used := used - 1;
    }
    var result := copied.value[..used];
    assert result == Canonical(t);
    if Contains(result, "/../") || Contains(result, "/./") || result == "/.." || result == "/."
       || (|result| >= 3 && result[|result| - 3..] == "/..") {
      return None;
    }
    CanonicalIsFromInput(text);
    return if AllowedRoot(result) then Some(result) else None;
  }

  method CopyCollapsed(text: string, inputLen: nat) returns (copied: Option<string>)
    requires inputLen <= |text|
    ensures copied == if exists c | c in text[..inputLen] :: Forbidden(c) then None else Some(Collapsed(text[..inputLen], false))
  {
    var previousSlash := false;
    var output := "";
    for i := 0 to inputLen
      invariant previousSlash == EndsInSlash(text[..i])
      invariant output == Collapsed(text[..i], false)
      invariant forall c :: c in text[..i] ==> !Forbidden(c)
    {
      var c := text[i];
      assert text[..i + 1] == text[..i] + [c];
      CollapsedAppend(text[..i], false, c);
      if Forbidden(c) {
        assert text[..inputLen][i] == c;
        return None;
      }
      if c == '/' {
        if previousSlash {
          continue;
        }
        previousSlash := true;
      } else {
        previousSlash := false;
      }
      output := output + [c];
    }
    copied := Some(output);
  }

  // ----- what every accepted path looks like -----

  predicate NoDoubleSlash(s: string) { forall i :: 0 <= i < |s| - 1 ==> !(s[i] == '/' && s[i + 1] == '/') }

  lemma {:induction false} CollapsedHasNoDouble(s: string, afterSlash: bool)
    ensures NoDoubleSlash(Collapsed(s, afterSlash))
    ensures afterSlash && Collapsed(s, afterSlash) != [] ==> Collapsed(s, afterSlash)[0] != '/'
    decreases |s|
  {
    if s != [] {
      CollapsedHasNoDouble(s[1..], true);
      CollapsedHasNoDouble(s[1..], s[0] == '/');
    }
  }

  lemma {:induction false} StrippedIsPrefix(s: string)
    requires s != []
    ensures 0 < |Stripped(s)| <= |s| && Stripped(s) == s[..|Stripped(s)|]
    ensures |Stripped(s)| > 1 ==> !EndsInSlash(Stripped(s))
    decreases |s|
  {
    if |s| > 1 && s[|s| - 1] == '/' {
      StrippedIsPrefix(s[..|s| - 1]);
    }
  }

  lemma {:induction false} TrimmedIsPrefix(s: string)
    ensures |Trimmed(s)| <= |s| && Trimmed(s) == s[..|Trimmed(s)|]
    ensures Trimmed(s) != [] ==> !Blank(Trimmed(s)[|Trimmed(s)| - 1])
    decreases |s|
  {
    if s != [] && Blank(s[|s| - 1]) {
      TrimmedIsPrefix(s[..|s| - 1]);
    }
  }

  /** A component runs from just after a slash up to the next slash or the end. */
  predicate IsComponent(s: string, i: nat, j: nat) {
    0 < i <= j <= |s| && s[i - 1] == '/' && (j == |s| || s[j] == '/') && '/' !in s[i..j]
  }

  lemma ParentClimbs(s: string, i: nat, j: nat)
    requires IsComponent(s, i, j) && s[i..j] == ".."
    ensures Climbs(s)
  {
    if j == |s| {
      assert s[|s| - 3..] == [s[i - 1]] + s[i..j];
    } else {
      assert s[i - 1..i + 3] == [s[i - 1]] + s[i..j] + [s[j]];
      assert At(s, i - 1, "/../");
    }
  }

  lemma InnerDotClimbs(s: string, i: nat, j: nat)
    requires IsComponent(s, i, j) && s[i..j] == "." && j < |s|
    ensures Climbs(s)
  {
    assert s[i - 1..i + 2] == [s[i - 1]] + s[i..j] + [s[j]];
    assert At(s, i - 1, "/./");
  }

  /** No component is the parent, and a dot component may only stand at the very end. */
  ghost predicate NamesOnly(s: string) {
    forall i: nat, j: nat :: IsComponent(s, i, j) ==> s[i..j] != ".." && (s[i..j] == "." ==> j == |s|)
  }

  lemma ClimbsUnlessNamesOnly(s: string)
    ensures Climbs(s) || NamesOnly(s)
  {
    forall i: nat, j: nat | IsComponent(s, i, j) ensures s[i..j] == ".." || (s[i..j] == "." && j < |s|) ==> Climbs(s) {
      if s[i..j] == ".." {
        ParentClimbs(s, i, j);
      } else if s[i..j] == "." && j < |s| {
        InnerDotClimbs(s, i, j);
      }
    }
  }

  /** The canonical form of a trimmed path. */
  ghost predicate CanonicalForm(s: string) {
    && s != [] && s[0] == '/' && NoDoubleSlash(s)
    && (|s| > 1 ==> !EndsInSlash(s))
    && (forall c :: c in s ==> !Forbidden(c))
    && |s| <= MAX_PATH_LEN
    && !Climbs(s) && NamesOnly(s) && AllowedRoot(s)
  }

  lemma CanonicalHasForm(t: string)
    requires t != [] && t[0] == '/'
    ensures Canonical(t) != [] && Canonical(t)[0] == '/' && |Canonical(t)| <= |t|
    ensures NoDoubleSlash(Canonical(t)) && (|Canonical(t)| > 1 ==> !EndsInSlash(Canonical(t)))
    ensures forall c :: c in Canonical(t) ==> c in t
  {
    CollapsedHasNoDouble(t, false);
    CollapsedIsNoLonger(t, false);
    CollapsedStart(t);
    StrippedIsPrefix(Collapsed(t, false));
  }

  /** Every accepted path is absolute, has no doubled and no trailing slash, no parent component and no forbidden
      character, is at most 95 characters long, and is the root or lies under an allowed root. */
  lemma AcceptedPaths(input: CString, outputSize: nat)
    requires Normalized(input, outputSize).Some?
    ensures CanonicalForm(Normalized(input, outputSize).value)
    ensures |Normalized(input, outputSize).value| < outputSize
  {
    hide Climbs, AllowedRoot, Canonical, NamesOnly, Forbidden;
    var t := Trimmed(input);
    if t == [] {
      RootIsCanonical();
    } else {
      CanonicalHasForm(t);
      ClimbsUnlessNamesOnly(Canonical(t));
    }
  }

  lemma RootIsCanonical()
    ensures CanonicalForm("/")
  {
    if Climbs("/") { ClimbHasDot("/"); }
    ClimbsUnlessNamesOnly("/");
  }

  lemma ClimbHasDot(s: string)
    requires Climbs(s)
    ensures '.' in s
  {
    if Contains(s, "/../") {
      var i: nat :| i <= |s| && At(s, i, "/../");
      assert s[i..i + 4][1] == s[i + 1];
    } else if Contains(s, "/./") {
      var i: nat :| i <= |s| && At(s, i, "/./");
      assert s[i..i + 3][1] == s[i + 1];
    } else if EndsWith(s, "/..") {
      assert s[|s| - 3..][1] == s[|s| - 2];
    } else {
      assert s[1] == '.';
    }
  }

  // ----- normalising again -----

  lemma {:induction false} CollapsedFixes(s: string, afterSlash: bool)
    requires NoDoubleSlash(s) && (afterSlash && s != [] ==> s[0] != '/')
    ensures Collapsed(s, afterSlash) == s
    decreases |s|
  {
    if s != [] {
      forall i | 0 <= i < |s[1..]| - 1 ensures !(s[1..][i] == '/' && s[1..][i + 1] == '/') {
        assert s[1..][i] == s[i + 1] && s[1..][i + 1] == s[i + 2];
      }
      assert s == [s[0]] + s[1..];
      CollapsedFixes(s[1..], s[0] == '/');
    }
  }

  /** Normalising a canonical path again returns it unchanged exactly when it does not end in a space. */
  lemma NormalizingAgain(s: CString, outputSize: nat)
    requires CanonicalForm(s) && |s| < outputSize
    ensures Normalized(s, outputSize) == Some(s) <==> s[|s| - 1] != ' '
  {
    hide Climbs, AllowedRoot, NamesOnly, Normalized, NoDoubleSlash;
    var last := s[|s| - 1];
    assert last in s;
    if Blank(last) {
      SpaceIsLost(s, outputSize);
    } else {
      AcceptedAsItIs(s, outputSize);
    }
  }

  lemma AcceptedAsItIs(s: CString, outputSize: nat)
    requires CanonicalForm(s) && |s| < outputSize && !Blank(s[|s| - 1])
    ensures Normalized(s, outputSize) == Some(s)
  {
    hide Climbs, AllowedRoot, NamesOnly, Forbidden, Collapsed;
    CollapsedFixes(s, false);
  }

  lemma SpaceIsLost(s: CString, outputSize: nat)
    requires s != [] && Blank(s[|s| - 1])
    ensures Normalized(s, outputSize) != Some(s)
  {
    TrimmedIsPrefix(s);
    var t := Trimmed(s);
    TrimmedIsPrefix(s[..|s| - 1]);
    if t == [] {
      assert s != "/";
    } else if t[0] == '/' {
      CanonicalHasForm(t);
    }
  }

  /** It does happen: a slash after a space hides the space from trimming. */
  lemma SpaceBeforeSlash()
    ensures Normalized("/profile/a /", 96) == Some("/profile/a ")
    ensures Normalized("/profile/a ", 96) != Some("/profile/a ")
  {
    SlashThenSpace();
    SpaceIsLost("/profile/a ", 96);
  }

  lemma SlashThenSpace()
    ensures Normalized("/profile/a /", 96) == Some("/profile/a ")
  {
    hide Climbs, AllowedRoot, Collapsed;
    var t, r := "/profile/a /", "/profile/a ";
    CollapsedFixes(t, false);
    assert t[..11] == r;
    assert Stripped(t) == Stripped(r);
    SpacedPathIsFine();
  }

  lemma SpacedPathIsFine()
    ensures !Climbs("/profile/a ") && AllowedRoot("/profile/a ")
  {
    var r := "/profile/a ";
    if Climbs(r) { ClimbHasDot(r); }
    assert r[..8] == "/profile" && "/profile" == ALLOWED_ROOTS[4];
    assert Under(r, ALLOWED_ROOTS[4]);
  }

  // ----- what a path means -----

  /** The names along a path: its non-empty components, in order. */
  function Names(s: string, current: string): seq<string> {
    if s == [] then (if current == [] then [] else [current])
    else if s[0] == '/' then (if current == [] then [] else [current]) + Names(s[1..], [])
    else Names(s[1..], current + [s[0]])
  }

  lemma {:induction false} CollapsingKeepsNames(s: string, afterSlash: bool, current: string)
    requires afterSlash ==> current == []
    ensures Names(Collapsed(s, afterSlash), current) == Names(s, current)
    decreases |s|
  {
    if s != [] {
      if s[0] == '/' && afterSlash {
        CollapsingKeepsNames(s[1..], true, []);
        assert [] + Names(s[1..], []) == Names(s[1..], []);
      } else {
        var c := Collapsed(s, afterSlash);
        assert c[0] == s[0] && c[1..] == Collapsed(s[1..], s[0] == '/');
        CollapsingKeepsNames(s[1..], s[0] == '/', if s[0] == '/' then [] else current + [s[0]]);
      }
    }
  }

  lemma {:induction false} TrailingSlashNamesNothing(s: string, current: string)
    ensures Names(s + "/", current) == Names(s, current)
    decreases |s|
  {
    if s == [] {
      assert "/"[1..] == [] && Names("/"[1..], []) == [];
      assert s + "/" == "/";
    } else {
      assert (s + "/")[0] == s[0] && (s + "/")[1..] == s[1..] + "/";
      TrailingSlashNamesNothing(s[1..], if s[0] == '/' then [] else current + [s[0]]);
    }
  }

  lemma {:induction false} StrippingKeepsNames(s: string)
    ensures Names(Stripped(s), []) == Names(s, [])
    decreases |s|
  {
    if |s| > 1 && s[|s| - 1] == '/' {
      StrippingKeepsNames(s[..|s| - 1]);
      TrailingSlashNamesNothing(s[..|s| - 1], []);
      assert s == s[..|s| - 1] + "/";
    }
  }

  /** The meaning is kept: an accepted path names the same components as the trimmed input. */
  lemma AcceptedPathsKeepNames(input: CString, outputSize: nat)
    requires Normalized(input, outputSize).Some?
    ensures Names(Normalized(input, outputSize).value, []) == Names(Trimmed(input), [])
  {
    var t := Trimmed(input);
    if t == [] {
      TrailingSlashNamesNothing([], []);
      assert [] + "/" == "/";
    } else {
      CollapsingKeepsNames(t, false, []);
      StrippingKeepsNames(Collapsed(t, false));
    }
  }
}
