/** Normalising a path again and again: it settles, and how soon depends on the slashes at its end. */
module PathSettling {
  import opened Iteration
  import opened PathNormalizer

  function TrailingSlashes(path: string): nat {
    if EndsInSlash(path) then 1 + TrailingSlashes(path[..|path| - 1]) else 0
  }

  lemma SlashesOfJoin(segs: seq<string>)
    requires |segs| >= 1 && AllPlain(segs)
    ensures TrailingSlashes(Join(segs)) == if |segs| > 1 && Last(segs) == "" then 1 + TrailingSlashes(Join(segs[..|segs| - 1])) else 0
  {
    JoinEnd(segs);
    if |segs| > 1 && Last(segs) == "" {
      JoinButLast(segs);
      assert Join(segs)[..|Join(segs)| - 1] == Join(segs[..|segs| - 1]);
    }
  }

  /** Where b is only empty if a is, b ends in no more slashes. */
  lemma {:induction false} NoMoreSlashes(a: seq<string>, b: seq<string>)
    requires |a| == |b| >= 1 && AllPlain(a) && AllPlain(b) && forall j | 0 <= j < |a| :: b[j] == "" ==> a[j] == ""
    ensures TrailingSlashes(Join(b)) <= TrailingSlashes(Join(a))
    decreases |b|
  {
    SlashesOfJoin(a);
    SlashesOfJoin(b);
    if |b| > 1 && Last(b) == "" { NoMoreSlashes(a[..|a| - 1], b[..|b| - 1]); }
  }

  lemma PassedAddsNoSlash(a: seq<string>, b: seq<string>, p: int)
    requires Passed(a, b, p) && |a| >= 1 && AllPlain(a) && AllPlain(b)
    ensures TrailingSlashes(Join(b)) <= TrailingSlashes(Join(a))
  {
    assert ID != "" && USERNAME != "";
    NoMoreSlashes(a, b);
  }

  lemma RewriteAddsNoSlash(segs: seq<string>)
    requires |segs| >= 1 && AllPlain(segs)
    ensures AllPlain(Rewrite(segs)) && TrailingSlashes(Join(Rewrite(segs))) <= TrailingSlashes(Join(segs))
  {
    RewriteIsPlain(segs);
    if StaticRuleOf(segs, 0).None? && !IsPresigned(segs) {
      PassIsPassed(segs);
      PassedAddsNoSlash(segs, Rewrite(segs), SlotOf(segs));
    } else {
      LastOfRewrite(segs);
      SlashesOfJoin(Rewrite(segs));
    }
  }

  lemma SlashesOfCore(path: string)
    ensures TrailingSlashes(Core(path)) == if TrailingSlashes(StripQuery(path)) > 0 then TrailingSlashes(StripQuery(path)) - 1 else 0
    ensures EndsInSlash(Core(path)) <==> TrailingSlashes(Core(path)) > 0
  {
  }

  /** What a pass makes of a path that is not empty: one slash at the end less, and no new one. */
  lemma PassDropsSlash(path: string) returns (segs: seq<string>)
    requires Core(path) != ""
    ensures |segs| >= 1 && AllPlain(segs) && segs != [""] && Normalized(path) == Join(Rewrite(segs))
    ensures TrailingSlashes(Normalized(path)) <= TrailingSlashes(Core(path))
  {
    segs := Split(Core(path));
    CoreIsPlain(path);
    JoinSplit(Core(path));
    RewriteAddsNoSlash(segs);
  }

  /** The path is what a pass over these segments puts out. */
  predicate Output(path: string, segs: seq<string>) {
    |segs| >= 1 && AllPlain(segs) && segs != [""] && path == Join(Rewrite(segs))
  }

  /** No output of a pass, with or without its last segment, is an update route that looks like an identifier. */
  lemma NoUpdateLeft(segs: seq<string>, n: nat)
    requires |segs| >= 1 && n <= |Rewrite(segs)| && StaticRuleOf(segs, 0).None?
    ensures !UpdateLooksLikeId(Rewrite(segs)[..n])
  {
    if !IsPresigned(segs) { PassIsPassed(segs); }
  }

  lemma StaticOutput(segs: seq<string>)
    requires |segs| >= 1 && StaticRuleOf(segs, 0).Some?
    ensures |Rewrite(segs)| == 5 && Last(Rewrite(segs)) != ""
  {
    var k := StaticRuleFound(segs, 0);
    LeadWords(k, 0);
  }

  /** The segments that a pass over an output works on: its own, less an empty one at the end. */
  lemma CoreOfOutput(out: seq<string>)
    requires |out| >= 1 && AllPlain(out) && out != [""] && out != ["", ""]
    ensures var n := if |out| > 1 && Last(out) == "" then |out| - 1 else |out|;
            Core(Join(out)) != "" && Split(Core(Join(out))) == out[..n]
  {
    if |out| > 1 && Last(out) == "" {
      CoreOfSlashed(out);
    } else {
      JoinNoQuery(out);
      NoQueryToStrip(Join(out));
      JoinEnd(out);
      SplitJoin(out);
      assert out[..|out|] == out;
    }
  }

  lemma OutputHasNoUpdate(segs: seq<string>)
    requires |segs| >= 1
    ensures var out := Rewrite(segs);
            var n := if |out| > 1 && Last(out) == "" then |out| - 1 else |out|;
            !UpdateLooksLikeId(out[..n])
  {
    if StaticRuleOf(segs, 0).Some? {
      StaticOutput(segs);
    } else {
      var out := Rewrite(segs);
      NoUpdateLeft(segs, if |out| > 1 && Last(out) == "" then |out| - 1 else |out|);
    }
  }

  lemma OnlySlash()
    ensures Core("/") == "" && Normalized("/") == "/"
  {
    assert "/"[1..] == "";
    assert StripQuery("/") == "/";
    assert "/"[..0] == "";
  }

  /** The output of a pass that ends in at most one slash is settled by one more pass. */
  lemma SettledByOne(path: string, segs: seq<string>)
    requires Output(path, segs) && TrailingSlashes(Core(path)) == 0
    ensures Normalized(Normalized(path)) == Normalized(path)
  {
    var out := Rewrite(segs);
    RewriteIsPlain(segs);
    LastOfRewrite(segs);
    NormalizeTwice(path);
    if out == ["", ""] {
      assert Join([""]) == "";
      assert out[1..] == [""] && Join(out) == "/";
      OnlySlash();
    } else {
      CoreOfOutput(out);
      OutputHasNoUpdate(segs);
      SlashesOfCore(path);
      CoreIsPlain(path);
      JoinSplit(Core(path));
      JoinEnd(Split(Core(path)));
    }
  }

  lemma NextOutput(path: string) returns (next: seq<string>)
    requires TrailingSlashes(Core(path)) > 0
    ensures Output(Normalized(path), next) && TrailingSlashes(Core(Normalized(path))) < TrailingSlashes(Core(path))
  {
    assert Core(path) != "";
    next := PassDropsSlash(path);
    SlashesOfOutput(next);
  }

  lemma SlashesOfOutput(segs: seq<string>)
    requires |segs| >= 1 && AllPlain(segs)
    ensures var path := Join(Rewrite(segs));
            TrailingSlashes(Core(path)) == if TrailingSlashes(path) > 0 then TrailingSlashes(path) - 1 else 0
  {
    RewriteIsPlain(segs);
    JoinNoQuery(Rewrite(segs));
    NoQueryToStrip(Join(Rewrite(segs)));
    SlashesOfCore(Join(Rewrite(segs)));
  }

  /** The path after n passes. */
  function Passes(path: string, n: nat): string { Iterate(Normalized, path, n) }

  ghost predicate IsOutput(path: string) { exists segs :: Output(path, segs) }

  /** The slashes at the end of what a pass works on. */
  function CoreSlashes(path: string): nat { TrailingSlashes(Core(path)) }

  lemma OutputsStep(path: string)
    requires IsOutput(path)
    ensures CoreSlashes(path) > 0 ==> IsOutput(Normalized(path)) && CoreSlashes(Normalized(path)) < CoreSlashes(path)
    ensures CoreSlashes(path) == 0 ==> Normalized(Normalized(path)) == Normalized(path)
  {
    if CoreSlashes(path) > 0 {
      var next := NextOutput(path);
    } else {
      var segs :| Output(path, segs);
      SettledByOne(path, segs);
    }
  }

  /** A function that steps like a pass does settles like one. */
  lemma OutputsSettle(pass: string -> string, path: string, n: nat)
    requires forall y :: pass(y) == Normalized(y)
    requires IsOutput(path) && CoreSlashes(path) < n
    ensures Iterate(pass, path, n + 1) == Iterate(pass, path, n)
  {
    forall y | IsOutput(y)
      ensures CoreSlashes(y) > 0 ==> IsOutput(pass(y)) && CoreSlashes(pass(y)) < CoreSlashes(y)
      ensures CoreSlashes(y) == 0 ==> pass(pass(y)) == pass(y)
    {
      OutputsStep(y);
    }
    Settles(pass, IsOutput, CoreSlashes, path, n);
  }

  lemma FirstPass(path: string, n: nat)
    ensures Passes(path, n + 1) == Passes(Normalized(path), n)
  {
  }

  /** Every path reaches a fixed point: after two passes, or after as many as it has slashes at its end if those are more. */
  lemma EveryPathSettles(path: string)
    ensures var t := TrailingSlashes(StripQuery(path));
            var n := if t > 2 then t else 2;
            Passes(path, n + 1) == Passes(path, n)
  {
    SlashesOfCore(path);
    if TrailingSlashes(Core(path)) == 0 {
      NormalizeThrice(path);
      FirstPass(path, 2);
      FirstPass(path, 1);
      FirstPass(Normalized(path), 1);
      FirstPass(Normalized(path), 0);
      FirstPass(Normalized(Normalized(path)), 0);
    } else {
      var n := TrailingSlashes(Core(path));
      var next := NextOutput(path);
      OutputsSettle(Normalized, Normalized(path), n);
      FirstPass(path, n + 1);
      FirstPass(path, n);
    }
  }

  // ---------------------------------------------------------------- inputs that need them

  /** "/a" and m slashes. */
  function Slashed(m: nat): string { if m == 0 then "/a" else Slashed(m - 1) + "/" }

  function SlashedSegments(m: nat): (segs: seq<string>)
    ensures |segs| == m + 2
  {
    if m == 0 then ["", "a"] else SlashedSegments(m - 1) + [""]
  }

  lemma {:induction false} SegmentsOfSlashed(m: nat)
    ensures Join(SlashedSegments(m)) == Slashed(m) && AllPlain(SlashedSegments(m))
    ensures SlashedSegments(m)[1] == "a" && forall j | 0 <= j < m + 2 && j != 1 :: SlashedSegments(m)[j] == ""
  {
    if m == 0 {
      assert Join(["a"]) == "a" && Join(["", "a"]) == "" + "/" + Join(["a"]);
    } else {
      SegmentsOfSlashed(m - 1);
      JoinAppend(SlashedSegments(m - 1), [""]);
      assert Join([""]) == "";
    }
  }

  lemma OneMoreSlash(s: string)
    ensures TrailingSlashes(s + "/") == 1 + TrailingSlashes(s)
  {
    assert (s + "/")[..|s + "/"| - 1] == s;
  }

  lemma {:induction false} SlashesOfSlashed(m: nat)
    ensures TrailingSlashes(Slashed(m)) == m
  {
    if m > 0 {
      SlashesOfSlashed(m - 1);
      OneMoreSlash(Slashed(m - 1));
    }
  }

  lemma WordStays(segs: seq<string>)
    requires |segs| >= 2 && segs[1] == "a" && forall j | 0 <= j < |segs| && j != 1 :: segs[j] == ""
    ensures Rewrite(segs) == segs
  {
    assert Word("a") by { WithoutDigits("a"); }
    assert StaticRuleOf(segs, 0).None? by {
      if StaticRuleOf(segs, 0).Some? {
        var k := StaticRuleFound(segs, 0);
        LeadWords(k, 1);
      }
    }
    assert Placed(segs) == segs && MaskAll(segs) == segs;
  }

  lemma CoreOfSlashes(m: nat)
    requires m >= 1
    ensures Core(Slashed(m)) != "" && Split(Core(Slashed(m))) == SlashedSegments(m - 1)
  {
    SegmentsOfSlashed(m);
    var out := SlashedSegments(m);
    assert out[..|out| - 1] == SlashedSegments(m - 1);
    CoreOfSlashed(out);
  }

  lemma SlashedStays(m: nat)
    ensures Join(Rewrite(SlashedSegments(m))) == Slashed(m)
  {
    SegmentsOfSlashed(m);
    WordStays(SlashedSegments(m));
  }

  lemma PassTo(path: string, segs: seq<string>, next: string)
    requires |segs| >= 1 && Core(path) != "" && Split(Core(path)) == segs && Join(Rewrite(segs)) == next
    ensures Normalized(path) == next
  {
  }

  lemma PassOverSlashed(m: nat)
    requires m >= 1
    ensures Normalized(Slashed(m)) == Slashed(m - 1)
  {
    CoreOfSlashes(m);
    SlashedStays(m - 1);
    PassTo(Slashed(m), SlashedSegments(m - 1), Slashed(m - 1));
  }

  /** The bound is reached: with m slashes at its end this path is not settled after m - 1 passes. */
  lemma ManySlashesNeedManyPasses(m: nat)
    requires m >= 1
    ensures TrailingSlashes(Slashed(m)) == m
    ensures Passes(Slashed(m), m) != Passes(Slashed(m), m - 1)
  {
    forall k: nat | 1 <= k ensures Normalized(Slashed(k)) == Slashed(k - 1) { PassOverSlashed(k); }
    WalksDown(Normalized, Slashed, m, m);
    WalksDown(Normalized, Slashed, m, m - 1);
    SlashesOfSlashed(m);
    assert Slashed(1) != Slashed(0);
  }

  lemma UpdateSegments(w: string)
    requires w != "" && HasPrefix(w, "update-") && LooksLikeId(w)
    ensures Rewrite(["", "v1", "users", w]) == ["", "v1", "users", ID]
    ensures Rewrite(["", "v1", "users", ID]) == ["", "v1", "users", USERNAME]
  {
    var segs, out := ["", "v1", "users", w], ["", "v1", "users", ID];
    VersionWord();
    ResourceWord("users");
    assert StaticRuleOf(segs, 0).None? by {
      if StaticRuleOf(segs, 0).Some? {
        var k := StaticRuleFound(segs, 0);
        LeadWords(k, 0);
      }
    }
    assert w[0] == 'u';
    assert Placed(segs) == segs && MaskAll(segs) == out;
    RewriteTwice(segs);
    assert out[3 := USERNAME] == ["", "v1", "users", USERNAME];
  }

  lemma JoinUser(w: string)
    ensures Join(["", "v1", "users", w]) == "/v1/users/" + w
  {
    assert Join(["users", w]) == "users" + "/" + w;
    assert Join(["v1", "users", w]) == "v1" + "/" + Join(["users", w]);
    assert Join(["", "v1", "users", w]) == "" + "/" + Join(["v1", "users", w]);
  }

  lemma PassOverUser(w: string, v: string)
    requires Plain(w) && w != "" && Rewrite(["", "v1", "users", w]) == ["", "v1", "users", v]
    ensures Normalized("/v1/users/" + w) == "/v1/users/" + v
  {
    assert Plain("") && Plain("v1") && Plain("users");
    JoinUser(w);
    JoinUser(v);
    NormalizedOfJoin(["", "v1", "users", w]);
  }

  lemma LooksLikeUpdate()
    ensures LooksLikeId("update-12") && HasPrefix("update-12", "update-") && Plain("update-12")
  {
    var w := "update-12";
    assert w[0] == 'u' && w[0] in w && w[7] == '1' && w[7] in w;
    assert w[..7] == "update-";
  }

  /** The two kinds of path that a second pass changes: an update route, and a path with two slashes at its end. */
  lemma SecondPassChangesThese()
    ensures Normalized("/v1/users/" + "update-12") == "/v1/users/" + ":id"
    ensures Normalized("/v1/users/" + ":id") == "/v1/users/" + ":username"
    ensures Normalized("/a//") == "/a/" && Normalized("/a/") == "/a"
  {
    LooksLikeUpdate();
    UpdateSegments("update-12");
    PassOverUser("update-12", ID);
    PassOverUser(ID, USERNAME);
    PassOverSlashed(2);
    PassOverSlashed(1);
    assert Slashed(1) == "/a/" && Slashed(2) == "/a//";
  }
}
