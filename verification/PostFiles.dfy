/** Editing a post: its text and its attachments. */
module PostFiles {
  import opened Keyspace

  datatype UserId = UserId(id: nat)
  datatype PostId = PostId(id: nat)
  datatype FileId = FileId(id: nat)

  /** A post, with the number of posts that it is shared from. */
  datatype Post = Post(author: UserId, content: string, files: seq<FileId>, sharedFrom: nat)

  datatype Error =
    | PostNotFound | Unauthorized | InvalidPostContentLength | PostContentUnchanged
    | InvalidDeleteAttachment | InvalidNumberOfPostAttachments | PostContentAndAttachFilesBothEmpty

  /** The new post and the files that the caller may delete from storage. */
  datatype Result = Edited(post: Post, deletedFiles: seq<FileId>) | Failed(error: Error)

  /** An edit request; the content, if there is one, is already trimmed. */
  datatype Request = Request(content: Option<string>, newFiles: seq<FileId>, deleteFiles: seq<FileId>, maxFiles: int, maxLength: int)

  // ---------------------------------------------------------------- equality up to order

  function Tally<T>(counts: map<T, int>, v: T): int { if v in counts then counts[v] else 0 }

  method CountUp<T(==)>(a: seq<T>) returns (counts: map<T, int>)
    ensures forall v :: Tally(counts, v) == multiset(a)[v]
  {
    counts := map[];
    for i := 0 to |a|
      invariant forall v :: Tally(counts, v) == multiset(a[..i])[v]
    {
      assert a[..i + 1] == a[..i] + [a[i]];
      counts := counts[a[i] := Tally(counts, a[i]) + 1];
    }
    assert a[..|a|] == a;
  }

  /** Counting up over the one slice and down over the other decides equality up to order. */
  method StringSliceEqual<T(==)>(a: seq<T>, b: seq<T>) returns (same: bool)
    ensures same <==> multiset(a) == multiset(b)
  {
    if |a| != |b| {
      assert |multiset(a)| == |a| && |multiset(b)| == |b|;
      return false;
    }
    var counts := CountUp(a);
    for i := 0 to |b|
      invariant forall v :: Tally(counts, v) >= 0
      invariant forall v :: Tally(counts, v) + multiset(b[..i])[v] == multiset(a)[v]
    {
      assert b[..i + 1] == b[..i] + [b[i]];
      if Tally(counts, b[i]) == 0 {
        assert b == b[..i + 1] + b[i + 1..];
        assert multiset(b)[b[i]] > multiset(a)[b[i]];
        return false;
      }
      ghost var before := counts;
      assert Tally(before, b[i]) > 0;
      counts := counts[b[i] := Tally(counts, b[i]) - 1];
      forall v ensures Tally(counts, v) >= 0 { assert Tally(before, v) >= 0; }
    }
    assert b[..|b|] == b;
    SameSizeSame(multiset(a), multiset(b));
    return true;
  }

  lemma SameSizeSame<T>(a: multiset<T>, b: multiset<T>)
    requires b <= a && |a| == |b|
    ensures a == b
  {
    assert a == b + (a - b);
  }

  // ---------------------------------------------------------------- the edit as a function

  /** The files that pass, in their order. */
  function Select(files: seq<FileId>, keep: FileId -> bool): seq<FileId> {
    if files == [] then []
    else
      var rest := Select(files[..|files| - 1], keep);
      if keep(files[|files| - 1]) then rest + [files[|files| - 1]] else rest
  }

  function Remaining(files: seq<FileId>, deleted: seq<FileId>): seq<FileId> { Select(files, f => f !in deleted) }

  function Removed(files: seq<FileId>, deleted: seq<FileId>): seq<FileId> { Select(files, f => f in deleted) }

  function FinalContent(p: Post, r: Request): string { if r.content.None? then p.content else r.content.value }

  function Edit(p: Post, r: Request, isShared: bool): Result {
    var files := Remaining(p.files, r.deleteFiles) + r.newFiles;
    if r.content.Some? && |r.content.value| > r.maxLength then Failed(InvalidPostContentLength)
    else if isShared then
      if r.content.None? || r.content.value == p.content then Failed(PostContentUnchanged)
      else Edited(p.(content := r.content.value), [])
    else if exists f :: f in r.deleteFiles && f !in p.files then Failed(InvalidDeleteAttachment)
    else if |files| > r.maxFiles then Failed(InvalidNumberOfPostAttachments)
    else if FinalContent(p, r) == "" && files == [] then Failed(PostContentAndAttachFilesBothEmpty)
    else if FinalContent(p, r) == p.content && multiset(files) == multiset(p.files) then Failed(PostContentUnchanged)
    else Edited(p.(content := FinalContent(p, r), files := files), r.deleteFiles)
  }

  /** The outcome for a post that is not shared and a text that is not too long: the first error in their order, or
      what is left of the files and then the new ones. */
  ghost predicate Changes(p: Post, r: Request, result: Result) {
    var kept, content := Remaining(p.files, r.deleteFiles), if r.content.Some? then r.content.value else p.content;
    var foreign, many := exists f <- r.deleteFiles :: f !in p.files, |kept| + |r.newFiles| > r.maxFiles;
    var empty := content == "" && kept == [] && r.newFiles == [];
    var same := content == p.content && multiset(kept) + multiset(r.newFiles) == multiset(p.files);
    && (result == Failed(InvalidDeleteAttachment) <==> foreign)
    && (result == Failed(InvalidNumberOfPostAttachments) <==> !foreign && many)
    && (result == Failed(PostContentAndAttachFilesBothEmpty) <==> !foreign && !many && empty)
    && (result == Failed(PostContentUnchanged) <==> !foreign && !many && !empty && same)
    && (result.Edited? <==> !foreign && !many && !empty && !same)
    && (result.Edited? ==> result == Edited(p.(content := content, files := kept + r.newFiles), r.deleteFiles))
  }

  /** The rows of the query that reads a post: an optional match without a match still makes one row. */
  function RowCount(p: Post): nat { if p.sharedFrom == 0 then 1 else p.sharedFrom }

  /** What the query answers to the question whether the post is shared. */
  predicate TakenAsShared(p: Post) { RowCount(p) > 0 }

  // ---------------------------------------------------------------- the repository

  class Posts {
    var posts: map<PostId, Post>

    constructor (posts: map<PostId, Post>)
      ensures this.posts == posts
    {
      this.posts := posts;
    }

    method RemainingFiles(files: seq<FileId>, deleted: seq<FileId>) returns (remaining: seq<FileId>)
      ensures remaining == Remaining(files, deleted)
    {
      var deleteSet := set f | f in deleted;
      remaining := [];
      for i := 0 to |files|
        invariant remaining == Remaining(files[..i], deleted)
      {
        assert files[..i + 1][..i] == files[..i];
        if files[i] !in deleteSet { remaining := remaining + [files[i]]; }
      }
      assert files[..|files|] == files;
    }

    method AllAttached(files: seq<FileId>, deleted: seq<FileId>) returns (ok: bool)
      ensures ok <==> forall f <- deleted :: f in files
    {
      var oldSet := set f | f in files;
      for i := 0 to |deleted|
        invariant forall j | 0 <= j < i :: deleted[j] in files
      {
        if deleted[i] !in oldSet { return false; }
      }
      return true;
    }

    /** The source's steps after the post is read: the first error, or the edited post. */
    method ApplyEdit(p: Post, r: Request, isShared: bool) returns (result: Result)
      ensures result == Edit(p, r, isShared)
      ensures result == Failed(InvalidPostContentLength) <==> r.content.Some? && |r.content.value| > r.maxLength
      ensures isShared && result != Failed(InvalidPostContentLength) ==>
                result == if r.content in {None, Some(p.content)} then Failed(PostContentUnchanged)
                          else Edited(p.(content := r.content.value), [])
      ensures !isShared && result != Failed(InvalidPostContentLength) ==> Changes(p, r, result)
    {
      if r.content.Some? && |r.content.value| > r.maxLength { return Failed(InvalidPostContentLength); }
      if isShared {
        if r.content.None? || r.content.value == p.content { return Failed(PostContentUnchanged); }
        return Edited(p.(content := r.content.value), []);
      }
      var attached := AllAttached(p.files, r.deleteFiles);
      if !attached { return Failed(InvalidDeleteAttachment); }
      var remaining := RemainingFiles(p.files, r.deleteFiles);
      var finalFiles := remaining + r.newFiles;
      if |finalFiles| > r.maxFiles { return Failed(InvalidNumberOfPostAttachments); }
      var finalContent := if r.content.None? then p.content else r.content.value;
      if finalContent == "" && |finalFiles| == 0 { return Failed(PostContentAndAttachFilesBothEmpty); }
      var same := StringSliceEqual(finalFiles, p.files);
      if finalContent == p.content && same { return Failed(PostContentUnchanged); }
      return Edited(p.(content := finalContent, files := finalFiles), r.deleteFiles);
    }

    method UpdateContent(user: UserId, id: PostId, r: Request) returns (result: Result)
      modifies this
      ensures id !in old(posts) ==> result == Failed(PostNotFound)
      ensures id in old(posts) && old(posts)[id].author != user ==> result == Failed(Unauthorized)
      ensures id in old(posts) && old(posts)[id].author == user ==>
                result == Edit(old(posts)[id], r, TakenAsShared(old(posts)[id]))
      ensures posts == if result.Edited? then old(posts)[id := result.post] else old(posts)
    {
      if id !in posts { return Failed(PostNotFound); }
      var p := posts[id];
      if p.author != user { return Failed(Unauthorized); }
      result := ApplyEdit(p, r, RowCount(p) > 0);
      if result.Edited? { posts := posts[id := result.post]; }
    }
  }

  // ---------------------------------------------------------------- what is kept

  /** The positions `at` increase, and the files there are the chosen ones. */
  predicate StandAt(files: seq<FileId>, chosen: seq<FileId>, at: seq<nat>) {
    && |at| == |chosen|
    && (forall k | 0 <= k < |at| :: at[k] < |files| && chosen[k] == files[at[k]])
    && forall k, l | 0 <= k < l < |at| :: at[k] < at[l]
  }

  lemma StandAtNext(files: seq<FileId>, chosen: seq<FileId>, at: seq<nat>, f: FileId)
    requires StandAt(files, chosen, at)
    ensures StandAt(files + [f], chosen, at) && StandAt(files + [f], chosen + [f], at + [|files|])
  {
  }

  lemma MembersNext(at: seq<nat>, n: nat)
    ensures forall i :: i in at + [n] <==> i in at || i == n
  {
  }

  /** The selected files stand in their old order, and every passing position is among them. */
  lemma {:induction false} SelectKeepsOrder(files: seq<FileId>, keep: FileId -> bool) returns (at: seq<nat>)
    ensures StandAt(files, Select(files, keep), at)
    ensures forall i | 0 <= i < |files| :: i in at <==> keep(files[i])
    decreases |files|
  {
    if files == [] {
      at := [];
    } else {
      var n := |files| - 1;
      var before := SelectKeepsOrder(files[..n], keep);
      assert files == files[..n] + [files[n]];
      StandAtNext(files[..n], Select(files[..n], keep), before, files[n]);
      MembersNext(before, n);
      assert forall i | 0 <= i < n :: files[..n][i] == files[i];
      assert n !in before;
      at := if keep(files[n]) then before + [n] else before;
    }
  }

  lemma {:induction false} SelectCounts(files: seq<FileId>, keep: FileId -> bool, f: FileId)
    ensures multiset(Select(files, keep))[f] == if keep(f) then multiset(files)[f] else 0
    decreases |files|
  {
    if files != [] {
      assert files == files[..|files| - 1] + [files[|files| - 1]];
      SelectCounts(files[..|files| - 1], keep, f);
    }
  }

  lemma RemainingAndRemoved(files: seq<FileId>, deleted: seq<FileId>)
    ensures multiset(Remaining(files, deleted)) + multiset(Removed(files, deleted)) == multiset(files)
  {
    forall f ensures (multiset(Remaining(files, deleted)) + multiset(Removed(files, deleted)))[f] == multiset(files)[f] {
      SelectCounts(files, g => g !in deleted, f);
      SelectCounts(files, g => g in deleted, f);
    }
  }

  /** The files are the same up to order exactly when those added are those removed. */
  lemma ExchangedExactly(files: seq<FileId>, deleted: seq<FileId>, added: seq<FileId>)
    ensures |Remaining(files, deleted)| + |Removed(files, deleted)| == |files|
    ensures multiset(Remaining(files, deleted) + added) == multiset(files) <==> multiset(added) == multiset(Removed(files, deleted))
  {
    RemainingAndRemoved(files, deleted);
    var kept, gone := Remaining(files, deleted), Removed(files, deleted);
    assert |multiset(kept) + multiset(gone)| == |kept| + |gone| && |multiset(files)| == |files|;
    assert multiset(kept + added) == multiset(kept) + multiset(added);
    if multiset(kept + added) == multiset(files) {
      assert multiset(added) == multiset(kept) + multiset(added) - multiset(kept);
      assert multiset(gone) == multiset(kept) + multiset(gone) - multiset(kept);
    }
  }

  // ---------------------------------------------------------------- what an edit means

  /** An edit of a post that is not shared goes through exactly when it deletes only attached files, respects both
      limits, leaves something to show, and changes the text or exchanges different files. */
  lemma EditGoesThroughExactly(p: Post, r: Request)
    ensures Edit(p, r, false).Edited? <==>
              && (r.content.Some? ==> |r.content.value| <= r.maxLength)
              && (forall f <- r.deleteFiles :: f in p.files)
              && |p.files| - |Removed(p.files, r.deleteFiles)| + |r.newFiles| <= r.maxFiles
              && (FinalContent(p, r) != "" || |Removed(p.files, r.deleteFiles)| < |p.files| || r.newFiles != [])
              && (FinalContent(p, r) != p.content || multiset(r.newFiles) != multiset(Removed(p.files, r.deleteFiles)))
  {
    ExchangedExactly(p.files, r.deleteFiles, r.newFiles);
  }

  /** What a successful edit stores: old files without the deleted ones in their order, then the new ones;
      within the limits, never empty altogether, and different from before even when order is ignored. */
  lemma EditStores(p: Post, r: Request) returns (at: seq<nat>)
    requires Edit(p, r, false).Edited?
    ensures var q := Edit(p, r, false).post;
            && q.author == p.author && q.content == FinalContent(p, r)
            && |q.files| == |at| + |r.newFiles| <= r.maxFiles
            && (forall k | 0 <= k < |at| :: at[k] < |p.files| && q.files[k] == p.files[at[k]])
            && (forall k, l | 0 <= k < l < |at| :: at[k] < at[l])
            && (forall i | 0 <= i < |p.files| :: i in at <==> p.files[i] !in r.deleteFiles)
            && q.files[|at|..] == r.newFiles
            && (q.content != "" || q.files != [])
            && (q.content != p.content || multiset(q.files) != multiset(p.files))
  {
    at := SelectKeepsOrder(p.files, f => f !in r.deleteFiles);
    assert Remaining(p.files, r.deleteFiles) == Select(p.files, f => f !in r.deleteFiles);
  }

  /** The files reported for deletion are no longer attached exactly when the request does not add one of them again. */
  lemma ReportedFilesAreGoneExactly(p: Post, r: Request)
    requires Edit(p, r, false).Edited?
    ensures var e := Edit(p, r, false);
            (forall f <- e.deletedFiles :: f !in e.post.files) <==> (forall f <- r.deleteFiles :: f !in r.newFiles)
  {
    forall f | f in r.deleteFiles ensures f !in Remaining(p.files, r.deleteFiles) {
      SelectCounts(p.files, g => g !in r.deleteFiles, f);
    }
  }

  /** Editing a shared post touches its text alone, and only to change it. */
  lemma SharedEditKeepsFiles(p: Post, r: Request)
    ensures Edit(p, r, true).Edited? ==>
              Edit(p, r, true).post.files == p.files && Edit(p, r, true).deletedFiles == []
              && Edit(p, r, true).post.content != p.content && |Edit(p, r, true).post.content| <= r.maxLength
    ensures r.content.None? ==> Edit(p, r, true) == Failed(PostContentUnchanged)
  {
  }

  // ---------------------------------------------------------------- the flag of the query

  lemma {:induction false} NothingRemoved(files: seq<FileId>)
    ensures Remaining(files, []) == files
    decreases |files|
  {
    if files != [] {
      NothingRemoved(files[..|files| - 1]);
      assert files == files[..|files| - 1] + [files[|files| - 1]];
    }
  }

  /** The request leaves the text alone and would not change the files either. */
  predicate ChangesNothing(p: Post, r: Request) {
    && (r.content.None? || r.content.value == p.content)
    && (forall f <- r.deleteFiles :: f in p.files)
    && |p.files| - |Removed(p.files, r.deleteFiles)| + |r.newFiles| <= r.maxFiles
    && (p.content != "" || |Removed(p.files, r.deleteFiles)| < |p.files| || r.newFiles != [])
    && multiset(r.newFiles) == multiset(Removed(p.files, r.deleteFiles))
  }

  /** The request changes the text and touches no file, of which there are not too many, and leaves something. */
  predicate ChangesTextAlone(p: Post, r: Request) {
    && r.content.Some? && r.content.value != p.content && r.deleteFiles == [] && r.newFiles == []
    && |p.files| <= r.maxFiles && (r.content.value != "" || p.files != [])
  }

  lemma UnchangedExactly(p: Post, r: Request)
    requires r.content.None? || (|r.content.value| <= r.maxLength && r.content.value == p.content)
    ensures Edit(p, r, false) == Failed(PostContentUnchanged) <==> ChangesNothing(p, r)
  {
    ExchangedExactly(p.files, r.deleteFiles, r.newFiles);
  }

  lemma TextAloneExactly(p: Post, r: Request)
    requires r.content.Some? && |r.content.value| <= r.maxLength && r.content.value != p.content
    ensures Edit(p, r, false) == Edited(p.(content := r.content.value), []) <==> ChangesTextAlone(p, r)
  {
    NothingRemoved(p.files);
    assert p.files + [] == p.files;
    if Edit(p, r, false) == Edited(p.(content := r.content.value), []) {
      assert r.deleteFiles == [] && p.files + r.newFiles == p.files;
      assert |p.files| + |r.newFiles| == |p.files|;
    }
  }

  /** The query takes every post as shared. For a post that is not, an edit gives what it should exactly if the text
      is too long, if there is nothing to change, or if the text changes and no file is touched. */
  lemma FlagIsHarmlessExactly(p: Post, r: Request)
    ensures TakenAsShared(p)
    ensures Edit(p, r, TakenAsShared(p)) == Edit(p, r, false)
            <==> (r.content.Some? && |r.content.value| > r.maxLength) || ChangesNothing(p, r) || ChangesTextAlone(p, r)
  {
    if r.content.Some? && |r.content.value| > r.maxLength {
    } else if r.content.None? || r.content.value == p.content {
      UnchangedExactly(p, r);
    } else {
      TextAloneExactly(p, r);
    }
  }

  /** Adding one file to a post that is not shared: refused as unchanged, or dropped while the new text is stored. */
  lemma AddedFileIsLost(author: UserId, f: FileId)
    ensures var p := Post(author, "old", [], 0);
            && Edit(p, Request(None, [f], [], 10, 100), TakenAsShared(p)) == Failed(PostContentUnchanged)
            && Edit(p, Request(Some("new"), [f], [], 10, 100), TakenAsShared(p)) == Edited(p.(content := "new"), [])
            && Edit(p, Request(None, [f], [], 10, 100), false) == Edited(p.(files := [f]), [])
  {
    var p := Post(author, "old", [], 0);
    assert "old" != "new" by { assert "old"[0] == 'o' && "new"[0] == 'n'; }
    assert Remaining(p.files, []) + [f] == [f] && |multiset([f])| == 1;
  }

  lemma {:induction false} AllRemoved(files: seq<FileId>, deleted: seq<FileId>)
    requires forall f <- files :: f in deleted
    ensures Remaining(files, deleted) == []
    decreases |files|
  {
    if files != [] {
      assert files[|files| - 1] in files && forall f <- files[..|files| - 1] :: f in files;
      AllRemoved(files[..|files| - 1], deleted);
    }
  }

  /** Deleting a file and adding it again beside another: it is reported as deleted and still attached. */
  lemma ReaddedFileIsReported(author: UserId, f: FileId, g: FileId)
    ensures var e := Edit(Post(author, "text", [f], 0), Request(None, [f, g], [f], 10, 100), false);
            e.Edited? && e.deletedFiles == [f] && e.post.files == [f, g]
  {
    AllRemoved([f], [f]);
    assert Remaining([f], [f]) + [f, g] == [f, g];
    assert |multiset([f, g])| == 2 && |multiset([f])| == 1;
  }
}
