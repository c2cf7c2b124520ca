/** Rewriting request paths to route patterns, and when rewriting twice changes nothing more. */
module PathNormalizer {
  import opened Digits
  import opened Keyspace

  // ---------------------------------------------------------------- what looks like an identifier

  predicate IsLetter(c: char) { 'a' <= c <= 'z' || 'A' <= c <= 'Z' }

  predicate IsHexDigit(c: char) { IsDigit(c) || 'a' <= c <= 'f' || 'A' <= c <= 'F' }

  predicate Numeric(s: string) { s != "" && forall c <- s :: IsDigit(c) }

  function Dashes(s: string): nat {
    if s == "" then 0 else Dashes(s[..|s| - 1]) + if s[|s| - 1] == '-' then 1 else 0
  }

  predicate HexOrUuid(s: string) {
    if |s| == 24 then forall c <- s :: IsHexDigit(c) else |s| == 36 && Dashes(s) == 4
  }

  predicate AlphanumericId(s: string) {
    && |s| >= 5
    && (forall c <- s :: IsLetter(c) || IsDigit(c) || c == '_' || c == '-')
    && (exists c <- s :: IsLetter(c)) && (exists c <- s :: IsDigit(c))
  }

  predicate LooksLikeId(s: string) { Numeric(s) || HexOrUuid(s) || AlphanumericId(s) }

  method IsNumeric(s: string) returns (yes: bool)
    ensures yes == Numeric(s)
    ensures yes <==> |s| > 0 && forall i | 0 <= i < |s| :: '0' <= s[i] <= '9'
  {
    if |s| == 0 { return false; }
    for i := 0 to |s|
      invariant forall j | 0 <= j < i :: IsDigit(s[j])
    {
      if s[i] < '0' || s[i] > '9' {
        assert s[i] in s;
        return false;
      }
    }
    return true;
  }

  method IsHexOrUuid(s: string) returns (yes: bool)
    ensures yes == HexOrUuid(s)
    ensures |s| == 24 ==>
              (yes <==> forall i | 0 <= i < 24 :: '0' <= s[i] <= '9' || 'a' <= s[i] <= 'f' || 'A' <= s[i] <= 'F')
    ensures |s| != 24 ==> (yes <==> |s| == 36 && Dashes(s) == 4)
  {
    if |s| == 24 {
      for i := 0 to |s|
        invariant forall j | 0 <= j < i :: IsHexDigit(s[j])
      {
        if !IsHexDigit(s[i]) { return false; }
      }
      return true;
    }
    return |s| == 36 && Dashes(s) == 4;
  }

  method IsAlphanumericId(s: string) returns (yes: bool)
    ensures yes == AlphanumericId(s)
    ensures yes <==>
              && |s| >= 5
              && (forall i | 0 <= i < |s| :: 'a' <= s[i] <= 'z' || 'A' <= s[i] <= 'Z' || '0' <= s[i] <= '9' || s[i] == '_' || s[i] == '-')
              && (exists i :: 0 <= i < |s| && ('a' <= s[i] <= 'z' || 'A' <= s[i] <= 'Z'))
              && (exists i :: 0 <= i < |s| && '0' <= s[i] <= '9')
  {
    if |s| < 5 { return false; }
    var hasLetter, hasDigit := false, false;
    for i := 0 to |s|
      invariant forall j | 0 <= j < i :: IsLetter(s[j]) || IsDigit(s[j]) || s[j] == '_' || s[j] == '-'
      invariant hasLetter <==> exists j :: 0 <= j < i && IsLetter(s[j])
      invariant hasDigit <==> exists j :: 0 <= j < i && IsDigit(s[j])
    {
      if IsLetter(s[i]) {
        hasLetter := true;
      } else if IsDigit(s[i]) {
        hasDigit := true;
      } else if s[i] != '_' && s[i] != '-' {
        assert s[i] in s;
        return false;
      }
    }
    yes := hasLetter && hasDigit;
    assert hasLetter ==> exists c <- s :: IsLetter(c);
    assert hasDigit ==> exists c <- s :: IsDigit(c);
  }

  // ---------------------------------------------------------------- segments

  predicate Plain(s: string) { '/' !in s && '?' !in s }

  predicate AllPlain(segs: seq<string>) { forall i | 0 <= i < |segs| :: Plain(segs[i]) }

  function Split(s: string): (segs: seq<string>)
    ensures |segs| >= 1
  {
    if s == "" then [""]
    else if s[0] == '/' then [""] + Split(s[1..])
    else var rest := Split(s[1..]); [[s[0]] + rest[0]] + rest[1..]
  }

  function Join(segs: seq<string>): string
    requires |segs| >= 1
  {
    if |segs| == 1 then segs[0] else segs[0] + "/" + Join(segs[1..])
  }

  lemma {:induction false} JoinSplit(s: string)
    ensures Join(Split(s)) == s
  {
    if s != "" {
      JoinSplit(s[1..]);
      var rest := Split(s[1..]);
      if s[0] == '/' {
        assert ([""] + rest)[1..] == rest;
        assert s == "" + "/" + s[1..];
      } else {
        assert Split(s)[0] == [s[0]] + rest[0] && Split(s)[1..] == rest[1..];
        assert s == [s[0]] + s[1..];
      }
    }
  }

  lemma {:induction false} SplitPlain(s: string)
    requires '/' !in s
    ensures Split(s) == [s]
  {
    if s != "" {
      assert s[0] in s && forall c <- s[1..] :: c in s;
      SplitPlain(s[1..]);
      assert [s[0]] + s[1..] == s;
    }
  }

  lemma {:induction false} SplitAfter(a: string, rest: string)
    requires '/' !in a
    ensures Split(a + "/" + rest) == [a] + Split(rest)
  {
    var s := a + "/" + rest;
    if a == "" {
      assert s[1..] == rest;
    } else {
      assert a[0] in a && forall c <- a[1..] :: c in a;
      assert s[1..] == a[1..] + "/" + rest;
      SplitAfter(a[1..], rest);
      assert [a[0]] + a[1..] == a;
    }
  }

  lemma {:induction false} SplitJoin(segs: seq<string>)
    requires |segs| >= 1 && AllPlain(segs)
    ensures Split(Join(segs)) == segs
  {
    if |segs| == 1 {
      SplitPlain(segs[0]);
    } else {
      SplitJoin(segs[1..]);
      SplitAfter(segs[0], Join(segs[1..]));
      assert segs == [segs[0]] + segs[1..];
    }
  }

  lemma {:induction false} JoinAppend(a: seq<string>, b: seq<string>)
    requires |a| >= 1 && |b| >= 1
    ensures Join(a + b) == Join(a) + "/" + Join(b)
  {
    if |a| == 1 {
      assert (a + b)[1..] == b;
    } else {
      assert (a + b)[1..] == a[1..] + b;
      JoinAppend(a[1..], b);
    }
  }

  lemma {:induction false} SplitNoQuery(s: string)
    requires '?' !in s
    ensures AllPlain(Split(s))
  {
    if s != "" {
      assert s[0] in s && forall c <- s[1..] :: c in s;
      SplitNoQuery(s[1..]);
      var rest := Split(s[1..]);
      forall i | 0 <= i < |Split(s)| ensures Plain(Split(s)[i]) {
        if i > 0 { assert Split(s)[i] == if s[0] == '/' then rest[i - 1] else rest[i]; }
      }
    }
  }

  lemma {:induction false} JoinNoQuery(segs: seq<string>)
    requires |segs| >= 1 && AllPlain(segs)
    ensures '?' !in Join(segs)
  {
    if |segs| > 1 {
      assert Plain(segs[0]);
      JoinNoQuery(segs[1..]);
    }
  }

  lemma JoinInjective(a: seq<string>, b: seq<string>)
    requires |a| >= 1 && |b| >= 1 && AllPlain(a) && AllPlain(b) && Join(a) == Join(b)
    ensures a == b
  {
    SplitJoin(a);
    SplitJoin(b);
  }

  // ---------------------------------------------------------------- the rules

  const ID := ":id"
  const USERNAME := ":username"

  /** Everything below these segments becomes one pattern. */
  datatype Rule = Rule(lead: seq<string>, slot: string)

  const STATIC_RULES: seq<Rule> := [
    Rule(["", "v1", "users", "of-user"], USERNAME),
    Rule(["", "v1", "posts", "of-user"], USERNAME),
    Rule(["", "v1", "posts", "files"], USERNAME),
    Rule(["", "v1", "posts", "like"], ":postId"),
    Rule(["", "v1", "friends", "mutual-friends"], USERNAME),
    Rule(["", "v1", "friend-request", "send"], USERNAME),
    Rule(["", "v1", "friend-request", "accept"], USERNAME),
    Rule(["", "v1", "friend-request", "delete"], USERNAME)]

  predicate HasPrefix(s: string, prefix: string) { prefix <= s }

  /** The first rule, from the i-th on, whose leading segments and a slash start the path. */
  function StaticRule(path: string, i: nat): Option<Rule>
    requires i <= |STATIC_RULES|
    decreases |STATIC_RULES| - i
  {
    if i == |STATIC_RULES| then None
    else if HasPrefix(path, Join(STATIC_RULES[i].lead) + "/") then Some(STATIC_RULES[i])
    else StaticRule(path, i + 1)
  }

  predicate Under(segs: seq<string>, lead: seq<string>) { |segs| > |lead| && segs[..|lead|] == lead }

  function StaticRuleOf(segs: seq<string>, i: nat): Option<Rule>
    requires i <= |STATIC_RULES|
    decreases |STATIC_RULES| - i
  {
    if i == |STATIC_RULES| then None
    else if Under(segs, STATIC_RULES[i].lead) then Some(STATIC_RULES[i])
    else StaticRuleOf(segs, i + 1)
  }

  predicate IsV1(segs: seq<string>, name: string) { |segs| >= 3 && segs[1] == "v1" && segs[2] == name }

  predicate IsUpload(s: string) { s in {"upload", "upload-multiple", "delete-multiple"} }

  predicate IsPresigned(segs: seq<string>) {
    |segs| >= 5 && IsV1(segs, "files") && !IsUpload(segs[3]) && segs[4] == "presigned"
  }

  /** The routes with a rule for one of their segments. */
  datatype Route = Users | Friends | Blocks | Stories | Files | Containers | Other

  function RouteOf(segs: seq<string>): Route {
    if |segs| == 4 && IsV1(segs, "users") then Users
    else if |segs| == 4 && IsV1(segs, "friends") then Friends
    else if |segs| == 4 && IsV1(segs, "blocks") then Blocks
    else if |segs| == 4 && IsV1(segs, "stories") then Stories
    else if |segs| >= 4 && IsV1(segs, "files") then Files
    else if |segs| >= 5 && IsV1(segs, "admin") && segs[3] == "containers" then Containers
    else Other
  }

  /** Which segment the route fixes, or -1, judging by its third segment where that matters. */
  function Slot(route: Route, third: string): int {
    match route
    case Users => if HasPrefix(third, "update-") then -1 else 3
    case Friends => if third == "suggested" then -1 else 3
    case Blocks => 3
    case Stories => if third == "feed" then -1 else 3
    case Files => if IsUpload(third) then -1 else 3
    case Containers => 4
    case Other => -1
  }

  function Label(route: Route): string {
    if route.Users? || route.Friends? || route.Blocks? then USERNAME else ID
  }

  function SlotOf(segs: seq<string>): (slot: int)
    ensures slot == -1 || 3 <= slot < |segs|
  {
    if RouteOf(segs).Other? then -1 else Slot(RouteOf(segs), segs[3])
  }

  function Placed(segs: seq<string>): (out: seq<string>)
    ensures |out| == |segs|
  {
    if SlotOf(segs) == -1 then segs else segs[SlotOf(segs) := Label(RouteOf(segs))]
  }

  function Mask(s: string): string { if s != "" && s[0] != ':' && LooksLikeId(s) then ID else s }

  function MaskAll(segs: seq<string>): (out: seq<string>)
    ensures |out| == |segs| && forall i | 0 <= i < |segs| :: out[i] == Mask(segs[i])
  {
    seq(|segs|, i requires 0 <= i < |segs| => Mask(segs[i]))
  }

  /** The whole rewriting, on segments. */
  function Rewrite(segs: seq<string>): (out: seq<string>)
    requires |segs| >= 1
    ensures |out| >= 1
  {
    match StaticRuleOf(segs, 0)
    case Some(rule) => rule.lead + [rule.slot]
    case None => if IsPresigned(segs) then ["", "v1", "files", ID, "presigned"] else MaskAll(Placed(segs))
  }

  function StripQuery(path: string): string {
    if path == "" || path[0] == '?' then "" else [path[0]] + StripQuery(path[1..])
  }

  function TrimSlash(path: string): string {
    if path != "" && path[|path| - 1] == '/' then path[..|path| - 1] else path
  }

  function Normalized(path: string): string {
    var p := TrimSlash(StripQuery(path));
    if p == "" then "/" else Join(Rewrite(Split(p)))
  }

  // ---------------------------------------------------------------- the source's method

  lemma HasPrefixOnSegments(path: string, lead: seq<string>)
    requires |lead| >= 1 && AllPlain(lead)
    ensures HasPrefix(path, Join(lead) + "/") <==> Under(Split(path), lead)
  {
    JoinSplit(path);
    if Under(Split(path), lead) {
      var rest := Split(path)[|lead|..];
      assert Split(path) == lead + rest;
      JoinAppend(lead, rest);
    }
    if HasPrefix(path, Join(lead) + "/") {
      var rest := path[|Join(lead) + "/"|..];
      assert path == Join(lead) + "/" + rest;
      JoinSplit(rest);
      JoinAppend(lead, Split(rest));
      SplitUnder(lead, rest);
    }
  }

  lemma {:induction false} SplitUnder(lead: seq<string>, rest: string)
    requires |lead| >= 1 && AllPlain(lead)
    ensures Split(Join(lead) + "/" + rest) == lead + Split(rest)
  {
    if |lead| == 1 {
      SplitAfter(lead[0], rest);
      assert lead == [lead[0]];
    } else {
      var tail := lead[1..];
      SplitUnder(tail, rest);
      SplitFirst(lead[0], Join(tail), rest, tail + Split(rest));
      assert [lead[0]] + (tail + Split(rest)) == lead + Split(rest);
    }
  }

  lemma SplitFirst(a: string, b: string, rest: string, segs: seq<string>)
    requires '/' !in a && Split(b + "/" + rest) == segs
    ensures Split(a + "/" + b + "/" + rest) == [a] + segs
  {
    SplitAfter(a, b + "/" + rest);
    assert a + "/" + b + "/" + rest == a + "/" + (b + "/" + rest);
  }

  lemma LeadsArePlain(i: nat)
    requires i < |STATIC_RULES|
    ensures |STATIC_RULES[i].lead| == 4 && AllPlain(STATIC_RULES[i].lead)
  {
    var lead := STATIC_RULES[i].lead;
    assert Plain(lead[0]) && Plain(lead[1]) && Plain(lead[2]) && Plain(lead[3]);
  }

  lemma {:induction false} StaticRuleOnSegments(path: string, i: nat)
    requires i <= |STATIC_RULES|
    ensures StaticRule(path, i) == StaticRuleOf(Split(path), i)
    decreases |STATIC_RULES| - i
  {
    if i < |STATIC_RULES| {
      LeadsArePlain(i);
      HasPrefixOnSegments(path, STATIC_RULES[i].lead);
      StaticRuleOnSegments(path, i + 1);
    }
  }

  /** What the position rules make of the segments a. */
  ghost predicate ByPosition(a: seq<string>, b: seq<string>) {
    var v1 := |a| >= 4 && a[1] == "v1";
    && |b| == |a|
    && (v1 && |a| == 4 && a[2] == "users" ==> b == if "update-" <= a[3] then a else a[3 := ":username"])
    && (v1 && |a| == 4 && a[2] == "friends" ==> b == if a[3] == "suggested" then a else a[3 := ":username"])
    && (v1 && |a| == 4 && a[2] == "blocks" ==> b == a[3 := ":username"])
    && (v1 && |a| == 4 && a[2] == "stories" ==> b == if a[3] == "feed" then a else a[3 := ":id"])
    && (v1 && a[2] == "files" ==> b == if a[3] in {"upload", "upload-multiple", "delete-multiple"} then a else a[3 := ":id"])
    && (v1 && |a| > 4 && a[2] == "admin" && a[3] == "containers" ==> b == a[4 := ":id"])
    && (!v1 || a[2] !in {"users", "friends", "blocks", "stories", "files", "admin"} ==> b == a)
    && (|a| > 4 && a[2] in {"users", "friends", "blocks", "stories"} ==> b == a)
    && (v1 && a[2] == "admin" && (|a| == 4 || a[3] != "containers") ==> b == a)
  }

  lemma PlacedByPosition(segs: seq<string>)
    ensures ByPosition(segs, Placed(segs))
  {
  }

  /** The position rules, applied one after the other; a presigned file link is answered at once. */
  method PlaceSegments(original: seq<string>) returns (presigned: bool, segments: seq<string>)
    ensures presigned == IsPresigned(original)
    ensures presigned <==>
              && |original| >= 5 && original[1] == "v1" && original[2] == "files" && original[4] == "presigned"
              && original[3] !in {"upload", "upload-multiple", "delete-multiple"}
    ensures !presigned ==> segments == Placed(original) && ByPosition(original, segments)
  {
    PlacedByPosition(original);
    segments := original;
    if |segments| == 4 && segments[1] == "v1" && segments[2] == "users" {
      if !HasPrefix(segments[3], "update-") { segments := segments[3 := USERNAME]; }
    }
    if |segments| == 4 && segments[1] == "v1" && segments[2] == "friends" {
      if segments[3] != "suggested" { segments := segments[3 := USERNAME]; }
    }
    if |segments| == 4 && segments[1] == "v1" && segments[2] == "blocks" {
      segments := segments[3 := USERNAME];
    }
    if |segments| == 4 && segments[1] == "v1" && segments[2] == "stories" {
      if segments[3] != "feed" { segments := segments[3 := ID]; }
    }
    if |segments| >= 4 && segments[1] == "v1" && segments[2] == "files" {
      if segments[3] != "upload" && segments[3] != "upload-multiple" && segments[3] != "delete-multiple" {
        if |segments| >= 5 && segments[4] == "presigned" { return true, segments; }
        segments := segments[3 := ID];
      }
    }
    if |segments| >= 5 && segments[1] == "v1" && segments[2] == "admin" && segments[3] == "containers" {
      segments := segments[4 := ID];
    }
    presigned := false;
  }

  /** The fallback: what still looks like an identifier is replaced in place. */
  method MaskSegments(placed: seq<string>) returns (segments: seq<string>)
    ensures segments == MaskAll(placed)
    ensures Masked(placed, segments)
  {
    segments := placed;
    for i := 0 to |segments|
      invariant |segments| == |placed|
      invariant forall j | 0 <= j < |placed| :: segments[j] == if j < i then Mask(placed[j]) else placed[j]
    {
      var seg := segments[i];
      if seg == "" || HasPrefix(seg, ":") { continue; }
      var numeric := IsNumeric(seg);
      if numeric {
        segments := segments[i := ID];
      } else {
        var hex := IsHexOrUuid(seg);
        var alphanumeric := IsAlphanumericId(seg);
        if hex || alphanumeric { segments := segments[i := ID]; }
      }
    }
  }

  method NormalizePath(path: string) returns (pattern: string)
    ensures pattern == Normalized(path)
  {
    var p := TrimSlash(StripQuery(path));
    if p == "" { return "/"; }
    StaticRuleOnSegments(p, 0);
    var rule := StaticRule(p, 0);
    if rule.Some? { return Join(rule.value.lead + [rule.value.slot]); }
    var presigned, segments := PlaceSegments(Split(p));
    if presigned { return Join(["", "v1", "files", ID, "presigned"]); }
    segments := MaskSegments(segments);
    return Join(segments);
  }

  // ---------------------------------------------------------------- the routes by name

  lemma LeadsDiffer(i: nat, k: nat)
    requires k < i < |STATIC_RULES|
    ensures STATIC_RULES[k].lead != STATIC_RULES[i].lead
  {
    var a, b := STATIC_RULES[k].lead, STATIC_RULES[i].lead;
    if i == 1 { assert a[2][0] != b[2][0]; }
    else if i == 2 { assert |a[3]| != |b[3]|; }
    else if i == 3 { assert |a[3]| != |b[3]|; }
    else if i == 4 { assert |a[3]| != |b[3]|; }
    else if k <= 4 { assert |a[2]| != |b[2]|; }
    else { assert a[3][0] != b[3][0]; }
  }

  lemma {:induction false} RuleFound(segs: seq<string>, i: nat, j: nat)
    requires j <= i < |STATIC_RULES| && Under(segs, STATIC_RULES[i].lead)
    ensures StaticRuleOf(segs, j) == Some(STATIC_RULES[i])
    decreases i - j
  {
    if j < i {
      LeadsDiffer(i, j);
      LeadsArePlain(i);
      LeadsArePlain(j);
      RuleFound(segs, i, j + 1);
    }
  }

  /** Whatever follows these two segments becomes the one placeholder. */
  ghost predicate Becomes(resource: string, action: string, rest: seq<string>, slot: string) {
    Rewrite(["", "v1", resource, action] + rest) == ["", "v1", resource, action, slot]
  }

  lemma RuleMakes(i: nat, resource: string, action: string, rest: seq<string>, slot: string)
    requires i < |STATIC_RULES| && STATIC_RULES[i] == Rule(["", "v1", resource, action], slot) && |rest| >= 1
    ensures Becomes(resource, action, rest, slot)
  {
    RuleFound(["", "v1", resource, action] + rest, i, 0);
  }

  /** The eight routes that keep nothing of what follows them, each with its placeholder. */
  lemma StaticRoutes(rest: seq<string>)
    requires |rest| >= 1
    ensures Becomes("users", "of-user", rest, ":username") && Becomes("posts", "of-user", rest, ":username")
    ensures Becomes("posts", "files", rest, ":username") && Becomes("posts", "like", rest, ":postId")
    ensures Becomes("friends", "mutual-friends", rest, ":username") && Becomes("friend-request", "send", rest, ":username")
    ensures Becomes("friend-request", "accept", rest, ":username") && Becomes("friend-request", "delete", rest, ":username")
  {
    PostRoutes(rest);
    FriendRoutes(rest);
  }

  lemma PostRoutes(rest: seq<string>)
    requires |rest| >= 1
    ensures Becomes("users", "of-user", rest, ":username") && Becomes("posts", "of-user", rest, ":username")
    ensures Becomes("posts", "files", rest, ":username") && Becomes("posts", "like", rest, ":postId")
  {
    RuleMakes(0, "users", "of-user", rest, ":username");
    RuleMakes(1, "posts", "of-user", rest, ":username");
    RuleMakes(2, "posts", "files", rest, ":username");
    RuleMakes(3, "posts", "like", rest, ":postId");
  }

  lemma FriendRoutes(rest: seq<string>)
    requires |rest| >= 1
    ensures Becomes("friends", "mutual-friends", rest, ":username") && Becomes("friend-request", "send", rest, ":username")
    ensures Becomes("friend-request", "accept", rest, ":username") && Becomes("friend-request", "delete", rest, ":username")
  {
    RuleMakes(4, "friends", "mutual-friends", rest, ":username");
    RuleMakes(5, "friend-request", "send", rest, ":username");
    RuleMakes(6, "friend-request", "accept", rest, ":username");
    RuleMakes(7, "friend-request", "delete", rest, ":username");
  }

  /** On every other path the position rules come first and the masks second. */
  lemma OtherRoutes(segs: seq<string>)
    requires |segs| >= 1 && StaticRuleOf(segs, 0).None?
    ensures IsPresigned(segs) ==> Rewrite(segs) == ["", "v1", "files", ":id", "presigned"]
    ensures !IsPresigned(segs) ==> exists placed :: ByPosition(segs, placed) && Masked(placed, Rewrite(segs))
  {
    PlacedByPosition(segs);
    assert Masked(Placed(segs), MaskAll(Placed(segs)));
  }

  lemma {:induction false} StripsQuery(path: string, query: string)
    requires '?' !in path
    ensures StripQuery(path) == path && StripQuery(path + "?" + query) == path
  {
    if path == "" {
      assert ("" + "?" + query)[0] == '?';
    } else {
      assert forall c <- path[1..] :: c in path;
      StripsQuery(path[1..], query);
      assert (path + "?" + query)[1..] == path[1..] + "?" + query && path[0] in path;
    }
  }

  /** Removing the query and then one slash leaves this path. */
  predicate Cleans(full: string, path: string) { TrimSlash(StripQuery(full)) == path }

  /** One slash at the end and any query make no difference. */
  lemma QueryAndSlashIgnored(path: string, query: string)
    requires '?' !in path && path != "" && path[|path| - 1] != '/'
    ensures Cleans(path, path) && Cleans(path + "/", path)
    ensures Cleans(path + "?" + query, path) && Cleans(path + "/" + "?" + query, path)
  {
    StripsQuery(path, query);
    StripsQuery(path + "/", query);
    assert TrimSlash(path + "/") == path;
  }

  ghost predicate Masked(a: seq<string>, b: seq<string>) {
    |a| == |b| && forall i | 0 <= i < |a| :: b[i] == if a[i] != "" && a[i][0] != ':' && LooksLikeId(a[i]) then ":id" else a[i]
  }

  // ---------------------------------------------------------------- rewriting twice

  /** A word no rule writes and no mask touches, so it stands in the output exactly where it stood in the input. */
  predicate Word(s: string) { s != "" && s[0] != ':' && !LooksLikeId(s) }

  predicate NoDigitsFrom(s: string, i: nat)
    decreases |s| - i
  {
    i >= |s| || (!IsDigit(s[i]) && NoDigitsFrom(s, i + 1))
  }

  lemma {:induction false} NoDigitsAt(s: string, i: nat, j: nat)
    requires NoDigitsFrom(s, i) && i <= j < |s|
    ensures !IsDigit(s[j])
    decreases j - i
  {
    if i < j { NoDigitsAt(s, i + 1, j); }
  }

  lemma WithoutDigits(s: string)
    requires 0 < |s| < 24 && s[0] != ':' && NoDigitsFrom(s, 0)
    ensures Word(s)
  {
    forall c | c in s ensures !IsDigit(c) {
      var i :| 0 <= i < |s| && s[i] == c;
      NoDigitsAt(s, 0, i);
    }
    assert s[0] in s;
  }

  predicate IsResource(name: string) { name in {"users", "friends", "blocks", "stories", "files", "admin"} }

  lemma ResourceWord(name: string)
    requires IsResource(name)
    ensures Word(name)
  {
    if name == "users" { WithoutDigits("users"); }
    else if name == "friends" { WithoutDigits("friends"); }
    else if name == "blocks" { WithoutDigits("blocks"); }
    else if name == "stories" { WithoutDigits("stories"); }
    else if name == "files" { WithoutDigits("files"); }
    else { WithoutDigits("admin"); }
  }

  lemma ContainersWord()
    ensures Word("containers")
  {
    WithoutDigits("containers");
  }

  lemma SuggestedWord()
    ensures Word("suggested")
  {
    WithoutDigits("suggested");
  }

  lemma FeedWord()
    ensures Word("feed")
  {
    WithoutDigits("feed");
  }

  lemma UploadWords(s: string)
    requires IsUpload(s)
    ensures Word(s)
  {
    if s == "upload" {
      WithoutDigits("upload");
    } else if s == "upload-multiple" {
      assert NoDigitsFrom("upload-multiple", 10) && NoDigitsFrom("upload-multiple", 5);
      WithoutDigits("upload-multiple");
    } else {
      assert NoDigitsFrom("delete-multiple", 10) && NoDigitsFrom("delete-multiple", 5);
      WithoutDigits("delete-multiple");
    }
  }

  lemma VersionWord()
    ensures Word("v1")
  {
    assert "v1"[0] == 'v' && 'v' in "v1";
  }

  /** An update route whose last segment would be taken for an identifier. */
  predicate UpdateLooksLikeId(segs: seq<string>) {
    RouteOf(segs).Users? && HasPrefix(segs[3], "update-") && LooksLikeId(segs[3])
  }

  predicate Ordinary(segs: seq<string>) { |segs| >= 1 && StaticRuleOf(segs, 0).None? && !IsPresigned(segs) }

  /** One pass over a: position p holds a placeholder, every other segment is masked. */
  predicate Passed(a: seq<string>, b: seq<string>, p: int) {
    && |a| == |b| && (p == -1 || 3 <= p < |a|)
    && forall j | 0 <= j < |a| :: if j == p then b[j] == ID || b[j] == USERNAME else b[j] == Mask(a[j])
  }

  lemma PassIsPassed(segs: seq<string>)
    ensures Passed(segs, MaskAll(Placed(segs)), SlotOf(segs))
    ensures SlotOf(segs) != -1 ==> MaskAll(Placed(segs))[SlotOf(segs)] == Label(RouteOf(segs))
  {
  }

  /** What stands in the output and is no placeholder already stood there in the input. */
  lemma OutputStoodInInput(a: seq<string>, b: seq<string>, p: int, j: nat)
    requires Passed(a, b, p) && j < |a| && b[j] != ID && b[j] != USERNAME
    ensures a[j] == b[j]
  {
  }

  lemma WordKept(a: seq<string>, b: seq<string>, p: int, j: nat, w: string)
    requires Passed(a, b, p) && j < |a| && j != p && Word(w)
    ensures a[j] == w <==> b[j] == w
  {
    assert ID[0] == ':' && USERNAME[0] == ':';
  }

  lemma {:induction false} StaticRuleReadsLead(a: seq<string>, b: seq<string>, i: nat)
    requires i <= |STATIC_RULES| && |a| > 4 && |b| > 4 && a[..4] == b[..4]
    ensures StaticRuleOf(a, i) == StaticRuleOf(b, i)
    decreases |STATIC_RULES| - i
  {
    if i < |STATIC_RULES| {
      LeadsArePlain(i);
      StaticRuleReadsLead(a, b, i + 1);
    }
  }

  lemma {:induction false} StaticRuleFound(segs: seq<string>, i: nat) returns (k: nat)
    requires i <= |STATIC_RULES| && StaticRuleOf(segs, i).Some?
    ensures k < |STATIC_RULES| && StaticRuleOf(segs, i).value == STATIC_RULES[k] && Under(segs, STATIC_RULES[k].lead)
    decreases |STATIC_RULES| - i
  {
    if Under(segs, STATIC_RULES[i].lead) { k := i; } else { k := StaticRuleFound(segs, i + 1); }
  }

  lemma LeadWords(k: nat, j: nat)
    requires k < |STATIC_RULES| && j < 4
    ensures |STATIC_RULES[k].lead| == 4 && STATIC_RULES[k].lead[j] != ID && STATIC_RULES[k].lead[j] != USERNAME
    ensures STATIC_RULES[k].lead[2] != "files"
    ensures Plain(STATIC_RULES[k].slot) && STATIC_RULES[k].slot != ""
  {
    assert STATIC_RULES[k].lead[j] == "" || STATIC_RULES[k].lead[j][0] != ':';
  }

  lemma NoStaticRuleAppears(a: seq<string>, b: seq<string>, p: int)
    requires Passed(a, b, p) && StaticRuleOf(a, 0).None?
    ensures StaticRuleOf(b, 0).None?
  {
    if StaticRuleOf(b, 0).Some? {
      var k := StaticRuleFound(b, 0);
      LeadsArePlain(k);
      SameLead(a, b, p, k);
      StaticRuleReadsLead(b, a, 0);
    }
  }

  lemma SameLead(a: seq<string>, b: seq<string>, p: int, k: nat)
    requires Passed(a, b, p) && k < |STATIC_RULES| && |STATIC_RULES[k].lead| == 4 && Under(b, STATIC_RULES[k].lead)
    ensures a[..4] == b[..4]
  {
    var lead := STATIC_RULES[k].lead;
    forall j | 0 <= j < 4 ensures a[j] == b[j] {
      LeadWords(k, j);
      assert b[j] == b[..4][j] == lead[j];
      OutputStoodInInput(a, b, p, j);
    }
  }

  lemma ResourceKept(a: seq<string>, b: seq<string>, p: int, name: string)
    requires Passed(a, b, p) && IsResource(name)
    ensures IsV1(a, name) <==> IsV1(b, name)
  {
    if |a| >= 3 {
      ResourceWord(name);
      VersionWord();
      WordKept(a, b, p, 1, "v1");
      WordKept(a, b, p, 2, name);
    }
  }

  lemma RouteKept(a: seq<string>, b: seq<string>, p: int)
    requires Passed(a, b, p) && (p == 3 ==> !RouteOf(a).Containers?)
    ensures RouteOf(a) == RouteOf(b)
  {
    ResourceKept(a, b, p, "users");
    ResourceKept(a, b, p, "friends");
    ResourceKept(a, b, p, "blocks");
    ResourceKept(a, b, p, "stories");
    ResourceKept(a, b, p, "files");
    ResourceKept(a, b, p, "admin");
    if |a| >= 5 {
      if p != 3 {
        ContainersWord();
        WordKept(a, b, p, 3, "containers");
      } else {
        assert b[3][0] == ':';
      }
    }
  }

  lemma UploadKept(a: seq<string>, b: seq<string>, p: int)
    requires Passed(a, b, p) && |a| >= 4
    ensures IsUpload(b[3]) <==> p != 3 && IsUpload(a[3])
  {
    if p == 3 {
      assert b[3][0] == ':';
    } else if IsUpload(a[3]) {
      UploadWords(a[3]);
      WordKept(a, b, p, 3, a[3]);
    } else if IsUpload(b[3]) {
      UploadWords(b[3]);
      WordKept(a, b, p, 3, b[3]);
    }
  }

  lemma NoPresignedAppears(a: seq<string>, b: seq<string>)
    requires Passed(a, b, SlotOf(a)) && !IsPresigned(a)
    ensures !IsPresigned(b)
  {
    ResourceKept(a, b, SlotOf(a), "files");
    if |a| >= 5 && IsV1(a, "files") {
      UploadKept(a, b, SlotOf(a));
      if b[4] == "presigned" { OutputStoodInInput(a, b, SlotOf(a), 4); }
    }
  }

  /** The third segment after a pass that left it alone sends the route to no slot, unless it was masked. */
  lemma SlotKept(a: seq<string>, b: seq<string>)
    requires Passed(a, b, SlotOf(a)) && !RouteOf(a).Other? && RouteOf(b) == RouteOf(a)
    requires SlotOf(a) != -1 ==> b[SlotOf(a)] == Label(RouteOf(a))
    ensures SlotOf(b) == if UpdateLooksLikeId(a) then 3 else SlotOf(a)
    ensures UpdateLooksLikeId(a) ==> b[3] == ID
  {
    var p := SlotOf(a);
    match RouteOf(a)
    case Users =>
      if p == -1 { assert a[3][0] == 'u'; } else { assert USERNAME[0] != "update-"[0]; }
    case Friends =>
      if p == -1 { SuggestedWord(); WordKept(a, b, p, 3, "suggested"); } else { assert b[3][0] == ':'; }
    case Blocks =>
    case Stories =>
      if p == -1 { FeedWord(); WordKept(a, b, p, 3, "feed"); } else { assert b[3][0] == ':'; }
    case Files => UploadKept(a, b, p);
    case Containers =>
  }

  /** After one pass the position rules have nothing left to do, save for an update route that was masked. */
  lemma PlacedOnce(segs: seq<string>)
    ensures var out := MaskAll(Placed(segs));
            Placed(out) == if UpdateLooksLikeId(segs) then out[3 := USERNAME] else out
    ensures UpdateLooksLikeId(segs) ==> MaskAll(Placed(segs))[3] == ID
  {
    var out := MaskAll(Placed(segs));
    PassIsPassed(segs);
    RouteKept(segs, out, SlotOf(segs));
    if !RouteOf(segs).Other? {
      SlotKept(segs, out);
      if !UpdateLooksLikeId(segs) && SlotOf(segs) != -1 {
        assert out[SlotOf(segs) := Label(RouteOf(segs))] == out;
      }
    }
  }

  /** The second pass on segments: a fixed point, save for an update route that was masked. */
  lemma RewriteTwice(segs: seq<string>)
    requires |segs| >= 1
    ensures var out := Rewrite(segs);
            Rewrite(out) == if Ordinary(segs) && UpdateLooksLikeId(segs) then out[3 := USERNAME] else out
    ensures Ordinary(segs) && UpdateLooksLikeId(segs) ==> |Rewrite(segs)| == 4 && Rewrite(segs)[3] == ID
  {
    var out := Rewrite(segs);
    if StaticRuleOf(segs, 0).Some? {
      var k := StaticRuleFound(segs, 0);
      LeadsArePlain(k);
      assert out[..4] == segs[..4];
      StaticRuleReadsLead(out, segs, 0);
    } else if IsPresigned(segs) {
      PresignedIsFixed();
    } else {
      PassIsPassed(segs);
      NoStaticRuleAppears(segs, out, SlotOf(segs));
      NoPresignedAppears(segs, out);
      PlacedOnce(segs);
      MaskAllTwice(Placed(segs));
    }
  }

  lemma PresignedIsFixed()
    ensures Rewrite(["", "v1", "files", ID, "presigned"]) == ["", "v1", "files", ID, "presigned"]
  {
    var out := ["", "v1", "files", ID, "presigned"];
    if StaticRuleOf(out, 0).Some? {
      var k := StaticRuleFound(out, 0);
      LeadWords(k, 2);
    }
  }

  lemma MaskAllTwice(segs: seq<string>)
    ensures MaskAll(MaskAll(segs)) == MaskAll(segs)
    ensures |segs| > 3 ==> MaskAll(MaskAll(segs)[3 := USERNAME]) == MaskAll(segs)[3 := USERNAME]
  {
  }

  // ---------------------------------------------------------------- normalising twice

  predicate EndsInSlash(path: string) { path != "" && path[|path| - 1] == '/' }

  function Last(segs: seq<string>): string
    requires |segs| >= 1
  {
    segs[|segs| - 1]
  }

  lemma {:induction false} JoinEnd(segs: seq<string>)
    requires |segs| >= 1 && AllPlain(segs)
    ensures EndsInSlash(Join(segs)) <==> |segs| > 1 && Last(segs) == ""
    ensures Join(segs) == "" <==> segs == [""]
  {
    if |segs| == 1 {
      assert Plain(segs[0]);
    } else {
      JoinEnd(segs[1..]);
      var rest := Join(segs[1..]);
      assert rest != "" ==> Join(segs)[|Join(segs)| - 1] == rest[|rest| - 1];
      assert Last(segs) == Last(segs[1..]);
      assert rest == "" ==> Last(segs) == "";
    }
  }

  lemma JoinButLast(segs: seq<string>)
    requires |segs| > 1 && AllPlain(segs) && Last(segs) == ""
    ensures Join(segs) == Join(segs[..|segs| - 1]) + "/"
  {
    var head := segs[..|segs| - 1];
    assert segs == head + [""];
    JoinAppend(head, [""]);
    assert Join([""]) == "";
  }

  lemma {:induction false} NoQueryToStrip(path: string)
    requires '?' !in path
    ensures StripQuery(path) == path
  {
    if path != "" {
      assert path[0] in path && forall c <- path[1..] :: c in path;
      NoQueryToStrip(path[1..]);
    }
  }

  lemma {:induction false} StripQueryStrips(path: string)
    ensures '?' !in StripQuery(path)
  {
    if path != "" && path[0] != '?' { StripQueryStrips(path[1..]); }
  }

  /** What a path is cut down to before it is split. */
  function Core(path: string): string { TrimSlash(StripQuery(path)) }

  lemma CoreIsPlain(path: string)
    ensures AllPlain(Split(Core(path)))
  {
    StripQueryStrips(path);
    SplitNoQuery(Core(path));
  }

  lemma RewriteIsPlain(segs: seq<string>)
    requires |segs| >= 1 && AllPlain(segs)
    ensures AllPlain(Rewrite(segs))
  {
    assert Plain(ID) && Plain(USERNAME);
    if StaticRuleOf(segs, 0).Some? {
      var k := StaticRuleFound(segs, 0);
      LeadsArePlain(k);
      LeadWords(k, 0);
    } else if IsPresigned(segs) {
      assert Plain("") && Plain("v1") && Plain("files") && Plain("presigned");
    } else {
      PassIsPassed(segs);
    }
  }

  /** Normalising a path made of plain segments works on those very segments. */
  lemma NormalizedOfJoin(segs: seq<string>)
    requires |segs| >= 1 && AllPlain(segs) && segs != [""] && (|segs| > 1 ==> Last(segs) != "")
    ensures Normalized(Join(segs)) == Join(Rewrite(segs))
  {
    JoinNoQuery(segs);
    NoQueryToStrip(Join(segs));
    JoinEnd(segs);
    SplitJoin(segs);
    assert Core(Join(segs)) == Join(segs) && Join(segs) != "";
  }

  /** The last segment of the input is empty and no rule fills it, so the output still ends in a slash. */
  predicate KeepsSlash(segs: seq<string>) {
    && |segs| > 1 && Last(segs) == "" && segs != ["", ""]
    && Ordinary(segs) && SlotOf(segs) != |segs| - 1
  }

  lemma PassedEnd(a: seq<string>, b: seq<string>, p: int)
    requires |a| >= 1 && Passed(a, b, p)
    ensures Last(b) == "" <==> Last(a) == "" && p != |a| - 1
    ensures |a| <= 2 ==> forall j | 0 <= j < |a| :: b[j] == "" <==> a[j] == ""
  {
    assert ID != "" && USERNAME != "";
  }

  lemma LastOfRewrite(segs: seq<string>)
    requires |segs| >= 1
    ensures |Rewrite(segs)| > 1 && Last(Rewrite(segs)) == "" <==> |segs| > 1 && Last(segs) == "" && Ordinary(segs) && SlotOf(segs) != |segs| - 1
    ensures Rewrite(segs) == ["", ""] <==> segs == ["", ""]
    ensures Rewrite(segs) == [""] <==> segs == [""]
    ensures |Rewrite(segs)| <= |segs|
  {
    if StaticRuleOf(segs, 0).Some? {
      var k := StaticRuleFound(segs, 0);
      LeadWords(k, 0);
    } else if !IsPresigned(segs) {
      PassIsPassed(segs);
      PassedEnd(segs, Rewrite(segs), SlotOf(segs));
    }
  }

  lemma CoreOfSlashed(out: seq<string>)
    requires |out| > 1 && AllPlain(out) && Last(out) == "" && out != ["", ""]
    ensures Core(Join(out)) != "" && Split(Core(Join(out))) == out[..|out| - 1]
  {
    var head := out[..|out| - 1];
    JoinNoQuery(out);
    NoQueryToStrip(Join(out));
    JoinButLast(out);
    JoinEnd(head);
    SplitJoin(head);
    assert head == [""] ==> out == [""] + [""];
  }

  lemma FewerSegments(a: seq<string>, b: seq<string>)
    requires 1 <= |a| < |b| && AllPlain(a) && AllPlain(b)
    ensures Join(a) != Join(b)
  {
    if Join(a) == Join(b) { JoinInjective(a, b); }
  }

  /** A second pass over an output that still ends in a slash leaves fewer segments. */
  lemma SlashIsDropped(out: seq<string>) returns (r: seq<string>)
    requires |out| > 1 && AllPlain(out) && Last(out) == "" && out != ["", ""]
    ensures |r| >= 1 && Normalized(Join(out)) == Join(r) && Join(r) != Join(out)
  {
    CoreOfSlashed(out);
    r := Rewrite(out[..|out| - 1]);
    RewriteIsPlain(out[..|out| - 1]);
    LastOfRewrite(out[..|out| - 1]);
    FewerSegments(r, out);
  }

  /**
   * Normalising a second time changes nothing, exactly unless the path is an update route whose last segment
   * looks like an identifier, or ends in two slashes that no rule covers.
   */
  lemma NormalizeTwice(path: string)
    ensures Normalized(Normalized(path)) == Normalized(path) <==>
              Core(path) == "" || !(KeepsSlash(Split(Core(path))) || (Ordinary(Split(Core(path))) && UpdateLooksLikeId(Split(Core(path)))))
  {
    if Core(path) == "" {
      assert StripQuery("/") == "/" && Normalized("/") == "/";
    } else {
      var segs := Split(Core(path));
      var out := Rewrite(segs);
      CoreIsPlain(path);
      RewriteIsPlain(segs);
      LastOfRewrite(segs);
      RewriteTwice(segs);
      JoinSplit(Core(path));
      JoinEnd(segs);
      if KeepsSlash(segs) {
        var r := SlashIsDropped(out);
      } else if segs == ["", ""] {
        assert Join(out) == "/" && StripQuery("/") == "/" && Normalized("/") == "/";
        assert !UpdateLooksLikeId(segs);
      } else {
        NormalizedOfJoin(out);
        if Ordinary(segs) && UpdateLooksLikeId(segs) {
          RewriteIsPlain(out);
          if Join(Rewrite(out)) == Join(out) { JoinInjective(Rewrite(out), out); }
        }
      }
    }
  }

  /** The third pass never changes anything for a path that does not end in two slashes. */
  lemma NormalizeThrice(path: string)
    requires !EndsInSlash(Core(path))
    ensures Normalized(Normalized(Normalized(path))) == Normalized(Normalized(path))
  {
    var segs := Split(Core(path));
    NormalizeTwice(path);
    CoreIsPlain(path);
    JoinSplit(Core(path));
    JoinEnd(segs);
    if Core(path) != "" && Ordinary(segs) && UpdateLooksLikeId(segs) {
      var out := Rewrite(segs);
      RewriteIsPlain(segs);
      LastOfRewrite(segs);
      RewriteTwice(segs);
      NormalizedOfJoin(out);
      assert !UpdateLooksLikeId(out) by { assert out[3][0] == ':'; }
      RewriteTwice(out);
      RewriteIsPlain(out);
      LastOfRewrite(out);
      NormalizedOfJoin(Rewrite(out));
    }
  }
}
