/**
 The text of an item: the crawler prints the posts of a batch of blocks as a JSON array, and the
 indexer loads it and takes each element's print without its quotes as a document.
 */
module ItemText {
  import opened Common
  import opened Json
  import opened JsonRoundTrip
  import opened Pipeline
  import M = Marshal
  import I = InvertedIndex
  import E = EndToEnd

  /** The tokenizer. */
  type Tokens = string -> seq<I.Word>

  // ----- writing and reading -----

  function WriteItem(posts: seq<string>): string
  {
    Dump(Arr(Strs(posts)), 1)
  }

  /** All but the first and the last character. */
  function Trim(s: string): (t: string)
    ensures if |s| < 2 then t == "" else s == [s[0]] + t + [s[|s| - 1]]
  {
    if |s| < 2 then "" else s[1..|s| - 1]
  }

  function DocOf(text: string, words: Tokens): I.Doc
  {
    I.Doc(text, words(text))
  }

  function ReadElems(elems: seq<Json>, words: Tokens): seq<I.Doc>
  {
    if elems == [] then []
    else ReadElems(elems[..|elems| - 1], words) + [DocOf(Trim(Dump(elems[|elems| - 1], 1)), words)]
  }

  /** The documents of an item; a text that is no array has none. */
  function ReadItem(text: string, words: Tokens): seq<I.Doc>
  {
    match Load(text)
    case Some(Arr(elems)) => ReadElems(elems, words)
    case _ => []
  }

  /** A post as a document: its text in escaped form. */
  function PostDocs(posts: seq<string>, words: Tokens): seq<I.Doc>
  {
    if posts == [] then [] else PostDocs(posts[..|posts| - 1], words) + [DocOf(Escape(posts[|posts| - 1]), words)]
  }

  lemma {:induction false} ReadPosts(posts: seq<string>, words: Tokens)
    ensures ReadElems(Strs(posts), words) == PostDocs(posts, words)
  {
    if posts != [] {
      var front, last := posts[..|posts| - 1], posts[|posts| - 1];
      ReadPosts(front, words);
      assert Strs(posts)[..|posts| - 1] == Strs(front);
      assert Dump(Str(last), 1) == "\"" + Escape(last) + "\"";
      assert Trim(Dump(Str(last), 1)) == Escape(last);
    }
  }

  lemma PostsArePrintable(posts: seq<string>)
    ensures Valid(Arr(Strs(posts))) && EscapedKeys(Arr(Strs(posts)))
  {
    assert forall v :: v in Strs(posts) ==> v.Str?;
  }

  /** Whatever the posts hold, the indexer reads each of them back, in order. */
  lemma ReadUndoesWrite(posts: seq<string>, words: Tokens)
    ensures ReadItem(WriteItem(posts), words) == PostDocs(posts, words)
  {
    PostsArePrintable(posts);
    LoadUndoesDump(Arr(Strs(posts)));
    ReadPosts(posts, words);
  }

  // ----- the items of the pipeline -----

  /** The posts of every block, and the text that stands in for a batch without any. */
  datatype Feed = Feed(posts: nat -> seq<string>, standIn: seq<Data> -> string)

  function PostsOf(feed: Feed, blocks: seq<Data>): seq<string>
  {
    if blocks == [] then []
    else
      var last := blocks[|blocks| - 1];
      PostsOf(feed, blocks[..|blocks| - 1]) + if last.Block? then feed.posts(last.id) else []
  }

  /** What the crawler writes for a batch. */
  function Batch(feed: Feed, blocks: seq<Data>): seq<string>
  {
    if PostsOf(feed, blocks) == [] then [feed.standIn(blocks)] else PostsOf(feed, blocks)
  }

  function Written(feed: Feed, d: Data): string
  {
    if d.Posts? then WriteItem(Batch(feed, d.blocks)) else ""
  }

  function ItemFormat(feed: Feed, words: Tokens): E.Format
  {
    E.Format(d => Written(feed, d), text => ReadItem(text, words))
  }

  function Archived(feed: Feed, words: Tokens): E.Archive
  {
    (id: nat) => PostDocs(feed.posts(id), words)
  }

  lemma PostDocsSnoc(posts: seq<string>, last: string, words: Tokens)
    ensures PostDocs(posts + [last], words) == PostDocs(posts, words) + [DocOf(Escape(last), words)]
  {
    assert (posts + [last])[..|posts|] == posts;
  }

  lemma {:induction false} PostDocsJoin(a: seq<string>, b: seq<string>, words: Tokens)
    ensures PostDocs(a + b, words) == PostDocs(a, words) + PostDocs(b, words)
  {
    if b == [] {
      assert a + b == a;
    } else {
      var front, last := b[..|b| - 1], b[|b| - 1];
      assert a + b == (a + front) + [last] && b == front + [last];
      PostDocsJoin(a, front, words);
      PostDocsSnoc(a + front, last, words);
      PostDocsSnoc(front, last, words);
      Regroup(PostDocs(a, words), PostDocs(front, words), [DocOf(Escape(last), words)]);
    }
  }

  lemma {:induction false} DocsOfBatch(feed: Feed, blocks: seq<Data>, words: Tokens)
    requires forall b :: b in blocks ==> b.Block?
    ensures E.DocsOfAll(blocks, Archived(feed, words)) == PostDocs(PostsOf(feed, blocks), words)
  {
    if blocks != [] {
      var front, last := blocks[..|blocks| - 1], blocks[|blocks| - 1];
      assert blocks == front + [last];
      DocsOfBatch(feed, front, words);
      PostDocsJoin(PostsOf(feed, front), feed.posts(last.id), words);
    }
  }

  /** An item of the pipeline reads back as the posts of its blocks exactly if its text passes the
      enclave's buffer and some block has a post. */
  lemma LegibleExactly(feed: Feed, d: Data, words: Tokens)
    requires d.Posts? && forall b :: b in d.blocks ==> b.Block?
    ensures E.Legible(ItemFormat(feed, words), d, Archived(feed, words))
       <==> M.Stringy(Written(feed, d)) && PostsOf(feed, d.blocks) != []
  {
    ReadUndoesWrite(Batch(feed, d.blocks), words);
    DocsOfBatch(feed, d.blocks, words);
    if PostsOf(feed, d.blocks) == [] {
      assert |PostDocs(Batch(feed, d.blocks), words)| == 1;
    }
  }

  /** So it is for every item of the pipeline. */
  lemma ItemsAreLegible(feed: Feed, e: nat, i: nat, d: Data, words: Tokens)
    requires e >= 1 && i >= 1 && d == ItemsVal(e, i)
    ensures E.Legible(ItemFormat(feed, words), d, Archived(feed, words))
       <==> M.Stringy(Written(feed, d)) && PostsOf(feed, d.blocks) != []
  {
    LegibleExactly(feed, d, words);
  }
}
