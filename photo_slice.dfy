/**
 The "photos" slice of the app's store: the most recent camera photo and the
 ordered list of posts, with the three reducers that change them.

 Each reducer is a method of `PhotoStore` that updates the store's fields in
 place, as the reducers update their draft state. Clock readings are passed
 in as parameters. The filter that `deletePost` applies is the function
 `WithoutId`, and the lemmas below state what it keeps and what it drops.
 */
module PhotoSlice {
  import NumberText

  datatype Option<T> = None | Some(value: T)

  /** One post. `caption` is absent when the payload carried none. */
  datatype Post = Post(id: string, images: seq<string>, caption: Option<string>, createdAt: int)

  /** The posts other than those whose id is `postId`, in their original order. */
  function WithoutId(posts: seq<Post>, postId: string): (r: seq<Post>)
    ensures |r| <= |posts|
  {
    if posts == [] then []
    else (if posts[0].id != postId then [posts[0]] else []) + WithoutId(posts[1..], postId)
  }

  /** How many posts carry the id `postId`. */
  function CountId(posts: seq<Post>, postId: string): nat {
    if posts == [] then 0
    else (if posts[0].id == postId then 1 else 0) + CountId(posts[1..], postId)
  }

  predicate HasId(posts: seq<Post>, postId: string) {
    exists i :: 0 <= i < |posts| && posts[i].id == postId
  }

  predicate UniqueIds(posts: seq<Post>) {
    forall i, j :: 0 <= i < j < |posts| ==> posts[i].id != posts[j].id
  }

  /**
   The post `createPost` builds: the payload's images and caption, an id that
   is the text of the first clock reading, and the second reading as its time.
   */
  function NewPost(images: seq<string>, caption: Option<string>, idReading: int, createdReading: int): (p: Post)
    ensures p.images == images && p.caption == caption && p.createdAt == createdReading
    ensures NumberText.IsNumberText(p.id) && NumberText.ParseNumber(p.id) == idReading
  {
    NumberText.ParseNumberOfNumberToString(idReading);
    Post(NumberText.NumberToString(idReading), images, caption, createdReading)
  }

  class PhotoStore {
    var recentPhoto: Option<string>
    var posts: seq<Post>

    /** The slice's initial state. */
    constructor ()
      ensures recentPhoto == None && posts == []
    {
      recentPhoto := None;
      posts := [];
    }

    /** `setRecentPhoto`: overwrite the photo slot, whatever the payload. */
    method SetRecentPhoto(payload: Option<string>)
      modifies this
      ensures recentPhoto == payload
      ensures posts == old(posts)
    {
      recentPhoto := payload;
    }

    /**
     `createPost`: append a post built from the payload and two clock
     readings. Nothing about `images` is checked, and the new id may equal
     an existing one.
     */
    method CreatePost(images: seq<string>, caption: Option<string>, idReading: int, createdReading: int)
      modifies this
      ensures |posts| == |old(posts)| + 1
      ensures posts[..|old(posts)|] == old(posts)
      ensures posts[|posts| - 1] == NewPost(images, caption, idReading, createdReading)
      ensures posts[|posts| - 1].images == images && posts[|posts| - 1].caption == caption
      ensures posts[|posts| - 1].createdAt == createdReading
      ensures NumberText.ParseNumber(posts[|posts| - 1].id) == idReading
      ensures recentPhoto == old(recentPhoto)
    {
      var newPost := NewPost(images, caption, idReading, createdReading);
      posts := posts + [newPost];
    }

    /** `deletePost`: keep every post whose id differs from `postId`. */
    method DeletePost(postId: string)
      modifies this
      ensures posts == WithoutId(old(posts), postId)
      ensures !HasId(posts, postId)
      ensures recentPhoto == old(recentPhoto)
    {
      WithoutIdRemovesAll(posts, postId);
      posts := WithoutId(posts, postId);
    }
  }

  /** A post survives the filter exactly when it was there and carries another id. */
  lemma {:induction false} WithoutIdMembers(posts: seq<Post>, postId: string, p: Post)
    ensures p in WithoutId(posts, postId) <==> p in posts && p.id != postId
  {
    if posts != [] {
      WithoutIdMembers(posts[1..], postId, p);
      assert posts == [posts[0]] + posts[1..];
    }
  }

  /** After the filter no post carries the deleted id. */
  lemma WithoutIdRemovesAll(posts: seq<Post>, postId: string)
    ensures !HasId(WithoutId(posts, postId), postId)
  {
  }

  /** Deleting an id no post carries changes nothing. */
  lemma {:induction false} WithoutIdAbsent(posts: seq<Post>, postId: string)
    requires !HasId(posts, postId)
    ensures WithoutId(posts, postId) == posts
  {
    if posts != [] {
      assert posts[0].id != postId;
      assert !HasId(posts[1..], postId) by {
        forall i | 0 <= i < |posts| - 1 ensures posts[1..][i].id != postId {
          assert posts[1..][i] == posts[i + 1];
        }
      }
      WithoutIdAbsent(posts[1..], postId);
    }
  }

  /** Deleting the same id twice leaves what deleting it once left. */
  lemma WithoutIdIdempotent(posts: seq<Post>, postId: string)
    ensures WithoutId(WithoutId(posts, postId), postId) == WithoutId(posts, postId)
  {
    WithoutIdRemovesAll(posts, postId);
    WithoutIdAbsent(WithoutId(posts, postId), postId);
  }

  /** The filter distributes over concatenation. */
  lemma {:induction false} WithoutIdAppend(a: seq<Post>, b: seq<Post>, postId: string)
    ensures WithoutId(a + b, postId) == WithoutId(a, postId) + WithoutId(b, postId)
  {
    if a != [] {
      assert (a + b)[1..] == a[1..] + b;
      WithoutIdAppend(a[1..], b, postId);
    } else {
      assert a + b == b;
    }
  }

  /** Two deletions give the same posts in either order. */
  lemma {:induction false} WithoutIdCommutes(posts: seq<Post>, x: string, y: string)
    ensures WithoutId(WithoutId(posts, x), y) == WithoutId(WithoutId(posts, y), x)
  {
    if posts != [] {
      var head := [posts[0]];
      WithoutIdCommutes(posts[1..], x, y);
      WithoutIdAppend(if posts[0].id != x then head else [], WithoutId(posts[1..], x), y);
      WithoutIdAppend(if posts[0].id != y then head else [], WithoutId(posts[1..], y), x);
    }
  }

  /** The filter drops exactly the posts that carry the id. */
  lemma {:induction false} WithoutIdLength(posts: seq<Post>, postId: string)
    ensures |WithoutId(posts, postId)| + CountId(posts, postId) == |posts|
  {
    if posts != [] {
      WithoutIdLength(posts[1..], postId);
    }
  }

  /** With unique ids, deleting a present id shortens the list by exactly one. */
  lemma {:induction false} UniqueIdCountsOnce(posts: seq<Post>, postId: string)
    requires UniqueIds(posts)
    ensures CountId(posts, postId) == if HasId(posts, postId) then 1 else 0
  {
    if posts != [] {
      var rest := posts[1..];
      assert UniqueIds(rest) by {
        forall i, j | 0 <= i < j < |rest| ensures rest[i].id != rest[j].id {
          assert rest[i] == posts[i + 1] && rest[j] == posts[j + 1];
        }
      }
      UniqueIdCountsOnce(rest, postId);
      if posts[0].id == postId {
        assert !HasId(rest, postId) by {
          forall i | 0 <= i < |rest| ensures rest[i].id != postId {
            assert rest[i] == posts[i + 1];
          }
        }
      } else {
        assert HasId(posts, postId) <==> HasId(rest, postId) by {
          if HasId(posts, postId) {
            var i :| 0 <= i < |posts| && posts[i].id == postId;
            assert rest[i - 1] == posts[i];
          }
          if HasId(rest, postId) {
            var i :| 0 <= i < |rest| && rest[i].id == postId;
            assert posts[i + 1] == rest[i];
          }
        }
      }
    }
  }

  lemma DeleteUniqueShrinksByOne(posts: seq<Post>, postId: string)
    requires UniqueIds(posts) && HasId(posts, postId)
    ensures |WithoutId(posts, postId)| == |posts| - 1
  {
    WithoutIdLength(posts, postId);
    UniqueIdCountsOnce(posts, postId);
  }

  /** Every entry of `idx` lies in `[lo, hi)`. */
  predicate WithinBounds(idx: seq<nat>, lo: nat, hi: nat) {
    forall k :: 0 <= k < |idx| ==> lo <= idx[k] < hi
  }

  predicate StrictlyIncreasing(idx: seq<nat>) {
    forall k, l :: 0 <= k < l < |idx| ==> idx[k] < idx[l]
  }

  /**
   The positions, counted from `offset`, of the posts that do not carry
   `postId`, in increasing order.
   */
  function KeptIndices(posts: seq<Post>, postId: string, offset: nat): (idx: seq<nat>)
    ensures |idx| == |WithoutId(posts, postId)|
    ensures WithinBounds(idx, offset, offset + |posts|)
  {
    if posts == [] then []
    else (if posts[0].id != postId then [offset] else []) + KeptIndices(posts[1..], postId, offset + 1)
  }

  lemma {:induction false} KeptIndicesSelect(posts: seq<Post>, postId: string, offset: nat)
    ensures var idx := KeptIndices(posts, postId, offset);
      forall k :: 0 <= k < |idx| ==> WithoutId(posts, postId)[k] == posts[idx[k] - offset]
  {
    if posts != [] {
      KeptIndicesSelect(posts[1..], postId, offset + 1);
    }
  }

  lemma PrependIncreasing(first: nat, rest: seq<nat>, hi: nat)
    requires StrictlyIncreasing(rest) && WithinBounds(rest, first + 1, hi)
    ensures StrictlyIncreasing([first] + rest)
  {
  }

  lemma {:induction false} KeptIndicesIncreasing(posts: seq<Post>, postId: string, offset: nat)
    ensures StrictlyIncreasing(KeptIndices(posts, postId, offset))
  {
    if posts != [] {
      var rest := KeptIndices(posts[1..], postId, offset + 1);
      KeptIndicesIncreasing(posts[1..], postId, offset + 1);
      if posts[0].id != postId {
        assert KeptIndices(posts, postId, offset) == [offset] + rest;
        PrependIncreasing(offset, rest, offset + |posts|);
      } else {
        assert KeptIndices(posts, postId, offset) == rest;
      }
    }
  }

  lemma {:induction false} KeptIndicesExactly(posts: seq<Post>, postId: string, offset: nat, j: nat)
    requires offset <= j < offset + |posts|
    ensures j in KeptIndices(posts, postId, offset) <==> posts[j - offset].id != postId
  {
    var head: seq<nat> := if posts[0].id != postId then [offset] else [];
    var rest := KeptIndices(posts[1..], postId, offset + 1);
    assert KeptIndices(posts, postId, offset) == head + rest;
    if j == offset {
      assert j !in rest;
    } else {
      KeptIndicesExactly(posts[1..], postId, offset + 1, j);
      assert posts[j - offset] == posts[1..][j - (offset + 1)];
    }
  }

  /**
   The filter keeps the other posts in order: the result is the subsequence
   of `posts` at the strictly increasing indices `idx`, and `idx` holds
   exactly the indices whose post does not carry `postId`.
   */
  lemma WithoutIdIsSubsequence(posts: seq<Post>, postId: string) returns (idx: seq<nat>)
    ensures |idx| == |WithoutId(posts, postId)|
    ensures forall k :: 0 <= k < |idx| ==> idx[k] < |posts| && WithoutId(posts, postId)[k] == posts[idx[k]]
    ensures forall k, l :: 0 <= k < l < |idx| ==> idx[k] < idx[l]
    ensures forall j :: 0 <= j < |posts| ==> (j in idx <==> posts[j].id != postId)
  {
    idx := KeptIndices(posts, postId, 0);
    KeptIndicesSelect(posts, postId, 0);
    KeptIndicesIncreasing(posts, postId, 0);
    forall j | 0 <= j < |posts| ensures j in idx <==> posts[j].id != postId {
      KeptIndicesExactly(posts, postId, 0, j);
    }
  }

  /**
   Deleting the new post's id after the append leaves what deleting it before
   the append would have left; earlier posts with the same id go too.
   */
  lemma DeleteAfterCreate(posts: seq<Post>, p: Post)
    ensures WithoutId(posts + [p], p.id) == WithoutId(posts, p.id)
  {
    WithoutIdAppend(posts, [p], p.id);
    assert WithoutId([p], p.id) == [];
  }

  /** Two clock readings that differ give two posts with different ids. */
  lemma NewPostIdsDiffer(images1: seq<string>, caption1: Option<string>, t1: int, c1: int,
                         images2: seq<string>, caption2: Option<string>, t2: int, c2: int)
    ensures NewPost(images1, caption1, t1, c1).id == NewPost(images2, caption2, t2, c2).id <==> t1 == t2
  {
  }
}
