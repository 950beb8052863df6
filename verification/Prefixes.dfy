/** Model prefixes: how they are normalised and applied, and when those
    operations are stable. */
module Prefixes {
  import opened Text

  function NormalizePrefixName(prefix: string): string {
    Trim(TrimSpace(prefix), IsSlash)
  }

  function NormalizePrefix(prefix: string): string {
    var name := NormalizePrefixName(prefix);
    if name == "" then "" else name + "/"
  }

  function ApplyPrefix(prefix: string, model: string): string {
    var prefix := NormalizePrefix(prefix);
    var model := TrimSpace(model);
    if prefix == "" || HasPrefix(model, prefix) then model else prefix + model
  }

  /** A name normalises to itself exactly when neither end is a space. */
  lemma NameStable(prefix: string)
    ensures var name := NormalizePrefixName(prefix);
            NormalizePrefixName(name) == name <==> Trimmed(name, IsSpace)
  {
    var name := NormalizePrefixName(prefix);
    TrimFixpoint(name, IsSpace);
    TrimFixpoint(name, IsSlash);
    TrimLength(name, IsSpace);
  }

  /** So "/ a /" needs two rounds: the first leaves " a ". */
  lemma NormalisingTwiceDiffers(a: string, spaced: string, raw: string)
    requires a != "" && Trimmed(a, IsSpace) && Trimmed(a, IsSlash)
    requires spaced == " " + a + " " && raw == "/" + spaced + "/"
    ensures NormalizePrefixName(raw) == spaced && NormalizePrefixName(spaced) == a
  {
    assert NormalizePrefixName(raw) == spaced by {
      SlashesComeOff("/", spaced, raw);
      SlashedStays(raw);
    }
    assert NormalizePrefixName(spaced) == a by {
      SpacesComeOff(a, spaced);
      TrimFixpoint(a, IsSlash);
    }
  }

  lemma SlashedStays(raw: string)
    requires raw != "" && raw[0] == '/' && raw[|raw| - 1] == '/'
    ensures TrimSpace(raw) == raw
  {
    TrimFixpoint(raw, IsSpace);
  }

  lemma SlashesComeOff(left: string, name: string, p: string)
    requires left == "" || left == "/"
    requires name != "" && Trimmed(name, IsSlash) && p == left + name + "/"
    ensures Trim(p, IsSlash) == name
  {
    TrimBlock(left, name, "/", IsSlash);
  }

  lemma SpacesComeOff(a: string, spaced: string)
    requires a != "" && Trimmed(a, IsSpace) && spaced == " " + a + " "
    ensures TrimSpace(spaced) == a
  {
    TrimBlock(" ", a, " ", IsSpace);
  }

  /** A normalised prefix normalises to itself exactly when it does not start
      with a space. */
  lemma PrefixStable(prefix: string)
    ensures var p := NormalizePrefix(prefix);
            NormalizePrefix(p) == p <==> p == "" || !IsSpace(p[0])
  {
    hide DropLeading, DropTrailing, Trim;
    var name := NormalizePrefixName(prefix);
    if name == "" {
      TrimFixpoint("", IsSpace);
      TrimFixpoint("", IsSlash);
    } else if IsSpace(name[0]) {
      SpacedPrefixShrinks(name + "/");
    } else {
      UnspacedPrefixIsStable(name, name + "/");
    }
  }

  lemma UnspacedPrefixIsStable(name: string, p: string)
    requires name != "" && Trimmed(name, IsSlash) && !IsSpace(name[0]) && p == name + "/"
    ensures NormalizePrefix(p) == p
  {
    hide DropLeading, DropTrailing, Trim;
    assert Trimmed(p, IsSpace);
    hide IsSpace;
    TrimFixpoint(p, IsSpace);
    assert p == "" + name + "/";
    SlashesComeOff("", name, p);
  }

  lemma SpacedPrefixShrinks(p: string)
    requires p != "" && IsSpace(p[0]) && p[|p| - 1] == '/'
    ensures |NormalizePrefix(p)| < |p|
  {
    hide DropLeading, DropTrailing, Trim;
    LastSurvives(p, IsSpace);
    assert !Trimmed(p, IsSpace);
    TrimFixpoint(p, IsSpace);
    TrimLength(p, IsSpace);
    var t := Trim(p, IsSpace);
    assert |t| < |p|;
    assert !Trimmed(t, IsSlash);
    TrimFixpoint(t, IsSlash);
    TrimLength(t, IsSlash);
  }

  /** Trimming does not remove a last character that is not cut. */
  lemma LastSurvives(s: string, cut: char -> bool)
    requires s != "" && !cut(s[|s| - 1])
    ensures Trim(s, cut) != "" && Trim(s, cut)[|Trim(s, cut)| - 1] == s[|s| - 1]
  {
    var d := DropLeading(s, cut);
    var last := s[|s| - 1];
    assert d != "" && d[|d| - 1] == last;
    assert DropTrailing(d, cut) == d;
  }

  /** What applying a prefix to a model whose last character is not a space can give. */
  lemma AppliedIs(prefix: string, q: string, b: string)
    requires q != "" && b != "" && !IsSpace(b[|b| - 1])
    ensures ApplyPrefix(prefix, b) == q + b <==>
            NormalizePrefix(prefix) == q && Trimmed(b, IsSpace) && !HasPrefix(b, q)
  {
    hide DropLeading, DropTrailing, Trim;
    var p, t := NormalizePrefix(prefix), TrimSpace(b);
    NormalizedEndsInSlash(prefix);
    TrimKeepsEnd(b);
    hide NormalizePrefix, TrimSpace, Trimmed;
    Spliced(p, q, b, t);
  }

  lemma Spliced(p: string, q: string, b: string, t: string)
    requires q != "" && |t| <= |b| && t == b[|b| - |t|..]
    requires p != "" ==> p[|p| - 1] == '/'
    requires forall k | 0 <= k < |b| - |t| :: IsSpace(b[k])
    ensures (if p == "" || HasPrefix(t, p) then t else p + t) == q + b <==> p == q && t == b && !HasPrefix(b, q)
  {
    var n := |b| - |t|;
    assert forall k | |q| <= k < |q| + n :: (q + b)[k] == b[k - |q|];
    assert p != "" ==> (p + t)[|p| - 1] == '/';
    if p + t == q + b {
      assert p == (p + t)[..|p|] == (q + b)[..|p|];
      assert n == 0 ==> (q + b)[..|q|] == q;
    }
  }

  lemma NormalizedEndsInSlash(prefix: string)
    ensures var p := NormalizePrefix(prefix); p == "" || p[|p| - 1] == '/'
  {
  }

  lemma TrimKeepsEnd(b: string)
    requires b != "" && !IsSpace(b[|b| - 1])
    ensures var t := TrimSpace(b);
            && t != "" && |t| <= |b| && t == b[|b| - |t|..] && Trimmed(t, IsSpace)
            && (forall k | 0 <= k < |b| - |t| :: IsSpace(b[k]))
            && (t == b <==> Trimmed(b, IsSpace))
  {
    LastSurvives(b, IsSpace);
    TrimFixpoint(b, IsSpace);
    assert DropTrailing(DropLeading(b, IsSpace), IsSpace) == DropLeading(b, IsSpace);
  }

  /** Applying a prefix twice is applying it once, for every model, exactly when the
      normalised prefix does not start with a space; then it is also stable. */
  lemma ApplyingTwice(prefix: string, model: string)
    ensures var once := ApplyPrefix(prefix, model);
            ApplyPrefix(prefix, once) == once <==>
            NormalizePrefix(prefix) == "" || !IsSpace(NormalizePrefix(prefix)[0])
  {
    hide DropLeading, DropTrailing, Trim;
    var p, m := NormalizePrefix(prefix), TrimSpace(model);
    var once := ApplyPrefix(prefix, model);
    NormalizedEndsInSlash(prefix);
    TrimFixpoint(m, IsSpace);
    hide NormalizePrefix;
    assert Trimmed(m, IsSpace);
    if p != "" && !HasPrefix(m, p) {
      assert once == p + m;
      assert once[|once| - 1] == if m == "" then '/' else m[|m| - 1];
      TrimKeepsEnd(once);
      hide TrimSpace;
      if IsSpace(p[0]) {
        SpacesBeforeSlash(p, m, TrimSpace(once));
      }
    }
  }

  lemma SpacesBeforeSlash(p: string, m: string, t: string)
    requires p != "" && p[|p| - 1] == '/' && t != "" && |t| <= |p + m| && Trimmed(t, IsSpace)
    requires IsSpace(p[0]) && forall k | 0 <= k < |p + m| - |t| :: IsSpace((p + m)[k])
    ensures |t| > |m| && !HasPrefix(t, p)
  {
    assert (p + m)[|p| - 1] == '/';
  }
}
