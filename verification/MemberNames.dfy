/**
 * The member names `scripts/acquire-pluginval.py` admits from a ZIP archive. A name is admitted as it
 * stands or not at all: it is never normalised into an acceptable one, and a path has at most two
 * spellings, with and without a trailing slash.
 */
module MemberNames {
  import opened Ascii
  import opened Wrappers

  /** A relative POSIX path as its parts. */
  type Path = seq<string>

  // ---- Member names -------------------------------------------------------------------------

  function JoinPath(parts: Path): string
    requires parts != []
  {
    if |parts| == 1 then parts[0] else parts[0] + "/" + JoinPath(parts[1..])
  }

  /** `s.split("/")` */
  function SplitPath(s: string): (parts: Path)
    ensures parts != []
  {
    if s == "" then [""]
    else
      var rest := SplitPath(s[1..]);
      if s[0] == '/' then [""] + rest else [[s[0]] + rest[0]] + rest[1..]
  }

  /** `s.rstrip("/")` */
  function StripSlashes(s: string): string {
    if s == "" || s[|s| - 1] != '/' then s else StripSlashes(s[..|s| - 1])
  }

  predicate EndsWith(s: string, c: char) { s != "" && s[|s| - 1] == c }

  predicate Unprintable(c: char) {
    c < ' ' || c == '\U{7F}' || c in "<>:\"|?*" || c >= '\U{80}'
  }

  function FoldPart(s: string): string { seq(|s|, k requires 0 <= k < |s| => Lower(s[k])) }

  function Fold(p: Path): Path { seq(|p|, k requires 0 <= k < |p| => FoldPart(p[k])) }

  /** The part up to its first dot. */
  function Stem(part: string): string {
    if part == "" || part[0] == '.' then "" else [part[0]] + Stem(part[1..])
  }

  /** A DOS device name, bare or with an extension. */
  predicate Device(part: string) {
    var stem := FoldPart(Stem(part));
    stem in ["con", "prn", "aux", "nul"]
    || (|stem| == 4 && stem[..3] in ["com", "lpt"] && IsDigit(stem[3]))
  }

  predicate SafePart(part: string) {
    part !in ["", ".", ".."] && !EndsWith(part, '.') && !EndsWith(part, ' ')
    && !Device(part) && forall k | 0 <= k < |part| :: !Unprintable(part[k])
  }

  predicate SafeParts(parts: Path) { parts != [] && forall k | 0 <= k < |parts| :: SafePart(parts[k]) }

  /** `safe_name`: the canonical parts, or a refusal. */
  function SafeName(name: string): Option<Path> {
    if name == "" || '\\' in name then None
    else
      var parts := SplitPath(StripSlashes(name));
      if name != JoinPath(parts) + (if EndsWith(name, '/') then "/" else "") then None
      else if SafeParts(parts) then Some(parts)
      else None
  }

  /** A path every part of which is safe and free of both separators. */
  ghost predicate Canonical(p: Path) {
    SafeParts(p) && forall k | 0 <= k < |p| :: NoSeparator(p[k])
  }

  predicate NoSeparator(part: string) { forall k | 0 <= k < |part| :: part[k] != '/' && part[k] != '\\' }

  // ---- A name is admitted iff it spells a canonical path --------------------------------------

  lemma {:induction false} SplitParts(s: string)
    requires '\\' !in s
    ensures forall k | 0 <= k < |SplitPath(s)| :: NoSeparator(SplitPath(s)[k])
  {
    if s != "" {
      SplitParts(s[1..]);
      var rest := SplitPath(s[1..]);
      assert NoSeparator(rest[0]);
      assert s[0] in s;
    }
  }

  lemma {:induction false} SplitPart(part: string)
    requires NoSeparator(part)
    ensures SplitPath(part) == [part]
  {
    if part != "" {
      SplitPart(part[1..]);
      assert part == [part[0]] + part[1..];
    }
  }

  lemma {:induction false} SplitCons(part: string, s: string)
    requires NoSeparator(part)
    ensures SplitPath(part + "/" + s) == [part] + SplitPath(s)
  {
    var t := part + "/" + s;
    if part == "" {
      assert t[1..] == s;
    } else {
      SplitCons(part[1..], s);
      assert t[1..] == part[1..] + "/" + s;
      assert [part[0]] + part[1..] == part;
    }
  }

  lemma {:induction false} SplitOfJoin(p: Path)
    requires Canonical(p)
    ensures SplitPath(JoinPath(p)) == p
  {
    if |p| == 1 {
      SplitPart(p[0]);
      assert p == [p[0]];
    } else {
      assert Canonical(p[1..]);
      SplitOfJoin(p[1..]);
      SplitCons(p[0], JoinPath(p[1..]));
      assert p == [p[0]] + p[1..];
    }
  }

  /** A joined canonical path is not empty, holds no backslash and does not end with a slash. */
  lemma {:induction false} JoinShape(p: Path)
    requires Canonical(p)
    ensures var s := JoinPath(p); s != "" && '\\' !in s && !EndsWith(s, '/')
  {
    assert SafePart(p[0]) && NoSeparator(p[0]);
    if |p| > 1 {
      assert Canonical(p[1..]);
      JoinShape(p[1..]);
    }
  }

  lemma StripUnslashed(s: string)
    requires !EndsWith(s, '/')
    ensures StripSlashes(s) == s && StripSlashes(s + "/") == s
  {
    assert (s + "/")[..|s|] == s;
  }

  lemma {:induction false} StripNoBackslash(s: string)
    requires '\\' !in s
    ensures '\\' !in StripSlashes(s)
  {
    if EndsWith(s, '/') { StripNoBackslash(s[..|s| - 1]); }
  }

  /**
   * `safe_name` admits exactly the spellings of canonical paths, with at most one trailing slash,
   * and answers with the path spelled: no unsafe name is normalised into a safe one.
   */
  lemma SafeNameIff(name: string, p: Path)
    ensures SafeName(name) == Some(p) <==> (Canonical(p) && (name == JoinPath(p) || name == JoinPath(p) + "/"))
  {
    hide SafePart, SplitPath, JoinPath, StripSlashes;
    if SafeName(name) == Some(p) {
      StripNoBackslash(name);
      SplitParts(StripSlashes(name));
      assert name == JoinPath(p) + "" ==> name == JoinPath(p);
    }
    if Canonical(p) && (name == JoinPath(p) || name == JoinPath(p) + "/") {
      var s := JoinPath(p);
      JoinShape(p);
      StripUnslashed(s);
      SplitOfJoin(p);
      assert EndsWith(name, '/') <==> name == s + "/";
      assert s == s + "";
    }
  }
}
