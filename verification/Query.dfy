/**
 Answering a query: look up the posting lists, intersect, cut a page of ten results and
 pad it with dummies; and the client's translation of page numbers to shards.
 */
module Query {
  import opened Common
  import opened InvertedIndex

  const PAGE: nat := 10
  const WORDS_MAX: nat := 32

  // ----- intersection -----

  /** The entries of `a` that are in `b`. */
  ghost function Keep(a: Postings, b: Postings): Postings
  {
    if a == [] then []
    else Keep(a[..|a| - 1], b) + if a[|a| - 1] in b then [a[|a| - 1]] else []
  }

  lemma {:induction false} KeepMeans(a: Postings, b: Postings)
    requires Increasing(a)
    ensures forall d :: d in Keep(a, b) <==> d in a && d in b
    ensures Increasing(Keep(a, b))
  {
    if a != [] {
      var front, last := a[..|a| - 1], a[|a| - 1];
      KeepMeans(front, b);
      assert a == front + [last];
      var k := Keep(front, b);
      forall i | 0 <= i < |k| ensures k[i] < last {
        assert k[i] in front;
      }
    }
  }

  /** std::set_intersection on two ascending lists. */
  method SetIntersection(a: Postings, b: Postings) returns (r: Postings)
    requires Increasing(a) && Increasing(b)
    ensures r == Keep(a, b)
  {
    r := [];
    var i, j := 0, 0;
    while i < |a| && j < |b|
      invariant 0 <= i <= |a| && 0 <= j <= |b|
      invariant r == Keep(a[..i], b)
      invariant i < |a| ==> forall k :: 0 <= k < j ==> b[k] < a[i]
      decreases |a| - i + |b| - j
    {
      if a[i] < b[j] {
        SkipAbsent(a, b, i, j);
        i := i + 1;
      } else if b[j] < a[i] {
        j := j + 1;
      } else {
        assert a[..i + 1][..i] == a[..i];
        r := r + [a[i]];
        i, j := i + 1, j + 1;
      }
    }
    KeepRest(a, b, i, j);
  }

  lemma SkipAbsent(a: Postings, b: Postings, i: nat, j: nat)
    requires Increasing(b) && i < |a| && j < |b| && a[i] < b[j]
    requires forall k :: 0 <= k < j ==> b[k] < a[i]
    ensures Keep(a[..i + 1], b) == Keep(a[..i], b)
  {
    assert a[..i + 1][..i] == a[..i];
    forall k | 0 <= k < |b| ensures b[k] != a[i] {
      assert j < k ==> b[j] < b[k];
    }
  }

  lemma {:induction false} KeepRest(a: Postings, b: Postings, i: nat, j: nat)
    requires Increasing(a) && i <= |a| && j <= |b| && (i == |a| || j == |b|)
    requires i < |a| ==> forall k :: 0 <= k < j ==> b[k] < a[i]
    ensures Keep(a[..i], b) == Keep(a, b)
    decreases |a| - i
  {
    if i == |a| {
      assert a[..i] == a;
    } else {
      assert a[..i + 1][..i] == a[..i];
      assert a[i] !in b;
      KeepRest(a, b, i + 1, j);
    }
  }

  // ----- STEP 2 and STEP 3 -----

  /** One list as it is; of more lists, the intersection of the last two. */
  ghost function Answer(index: Index, words: seq<Word>): Postings
  {
    var n := |words|;
    if n == 0 then []
    else if n == 1 then At(index, words[0])
    else Keep(At(index, words[n - 2]), At(index, words[n - 1]))
  }

  ghost predicate Ascending(index: Index)
  {
    forall w :: w in index ==> Increasing(index[w])
  }

  method AnswerQuery(index: Index, words: seq<Word>) returns (docs: Postings)
    requires Ascending(index)
    ensures docs == Answer(index, words)
  {
    var lists := LookUp(index, words);
    docs := [];
    for i := 0 to |lists|
      invariant i == 0 ==> docs == []
      invariant 0 < i ==> docs == Answer(index, words[..i])
    {
      if i > 0 {
        docs := SetIntersection(lists[i - 1], lists[i]);
      } else {
        docs := lists[0];
      }
    }
    assert words[..|words|] == words;
  }

  method LookUp(index: Index, words: seq<Word>) returns (lists: seq<Postings>)
    ensures |lists| == |words| && forall k :: 0 <= k < |words| ==> lists[k] == At(index, words[k])
  {
    lists := [];
    for i := 0 to |words|
      invariant |lists| == i && forall k :: 0 <= k < i ==> lists[k] == At(index, words[k])
    {
      lists := lists + [At(index, words[i])];
    }
  }

  /** Document `d` is listed for every word. */
  ghost predicate Matches(index: Index, words: seq<Word>, d: nat)
  {
    words != [] && forall w :: w in words ==> d in At(index, w)
  }

  ghost predicate Correct(index: Index, words: seq<Word>)
  {
    forall d :: d in Answer(index, words) <==> Matches(index, words, d)
  }

  /** Every word is one of the last two. */
  ghost predicate LastTwoSuffice(words: seq<Word>)
  {
    forall w :: w in words ==> w == words[|words| - 1] || (|words| >= 2 && w == words[|words| - 2])
  }

  lemma AnswerMeans(index: Index, words: seq<Word>, d: nat)
    requires Ascending(index) && words != []
    ensures d in Answer(index, words) <==>
      d in At(index, words[|words| - 1]) && (|words| >= 2 ==> d in At(index, words[|words| - 2]))
  {
    if |words| >= 2 {
      KeepMeans(At(index, words[|words| - 2]), At(index, words[|words| - 1]));
    }
  }

  /** With one or two words, and only with words that all occur among the last two, is the
      answer on every index exactly the documents that hold all words. */
  lemma AnswerIsExact(words: seq<Word>)
    ensures (forall index :: Ascending(index) ==> Correct(index, words)) <==> LastTwoSuffice(words)
  {
    if LastTwoSuffice(words) {
      forall index | Ascending(index) ensures Correct(index, words) {
        LastTwoCorrect(index, words);
      }
    } else {
      var w :| w in words && w != words[|words| - 1] && (|words| >= 2 ==> w != words[|words| - 2]);
      var index := EarlyWordIgnored(words, w);
    }
  }

  /** An index on which the answer overlooks that document 1 lacks `w`. */
  lemma EarlyWordIgnored(words: seq<Word>, w: Word) returns (index: Index)
    requires w in words && w != words[|words| - 1] && (|words| >= 2 ==> w != words[|words| - 2])
    ensures Ascending(index) && !Correct(index, words)
  {
    var last := words[|words| - 1];
    var prev := if |words| >= 2 then words[|words| - 2] else last;
    index := map[last := [1], prev := [1]];
    AnswerMeans(index, words, 1);
    assert 1 in Answer(index, words);
    assert At(index, w) == [] && !Matches(index, words, 1);
  }

  lemma LastTwoCorrect(index: Index, words: seq<Word>)
    requires Ascending(index) && LastTwoSuffice(words)
    ensures Correct(index, words)
  {
    if words != [] {
      assert words[|words| - 1] in words && (|words| >= 2 ==> words[|words| - 2] in words);
      forall d ensures d in Answer(index, words) <==> Matches(index, words, d) {
        AnswerMeans(index, words, d);
      }
    }
  }

  // ----- the documents an answer stands for -----

  ghost predicate HasAll(doc: Doc, words: seq<Word>)
  {
    forall w :: w in words ==> w in doc.words
  }

  /** A query of one or two words, none of them a stop word. */
  ghost predicate Asked(words: seq<Word>, stop: set<Word>)
  {
    1 <= |words| <= 2 && forall w :: w in words ==> w !in stop
  }

  lemma MatchesDocument(index: Index, docs: seq<Doc>, stop: set<Word>, words: seq<Word>, d: nat)
    requires Indexes(index, docs, stop) && words != [] && forall w :: w in words ==> w !in stop
    ensures Matches(index, words, d) <==> 1 <= d <= |docs| && HasAll(docs[d - 1], words)
  {
    forall w | w in words ensures d in At(index, w) <==> 1 <= d <= |docs| && w in docs[d - 1].words {
      DocsWithMeans(docs, w);
    }
    assert words[0] in words;
  }

  /** Over the index of a document list, a query of one or two words that are not stop words
      lists, in ascending order, the documents that hold all of them. */
  lemma AnswersDocuments(index: Index, docs: seq<Doc>, stop: set<Word>, words: seq<Word>)
    requires Indexes(index, docs, stop) && Asked(words, stop)
    ensures Ascending(index) && Increasing(Answer(index, words))
    ensures forall d :: d in Answer(index, words) <==> 1 <= d <= |docs| && HasAll(docs[d - 1], words)
  {
    IndexAscends(index, docs, stop);
    LastTwoCorrect(index, words);
    forall d: nat ensures Matches(index, words, d) <==> 1 <= d <= |docs| && HasAll(docs[d - 1], words) {
      MatchesDocument(index, docs, stop, words, d);
    }
    assert words[0] in words;
    if |words| == 2 {
      KeepMeans(At(index, words[0]), At(index, words[1]));
    }
  }

  lemma IndexAscends(index: Index, docs: seq<Doc>, stop: set<Word>)
    requires Indexes(index, docs, stop)
    ensures Ascending(index)
  {
    forall w | w in index ensures Increasing(index[w]) {
      DocsWithMeans(docs, w);
    }
  }

  /** The numbers of the documents that hold all words. */
  ghost function MatchNumbers(docs: seq<Doc>, words: seq<Word>): Postings
  {
    if docs == [] then []
    else MatchNumbers(docs[..|docs| - 1], words) + if HasAll(docs[|docs| - 1], words) then [|docs|] else []
  }

  /** The digests of these documents, in their order. */
  ghost function MatchDigests(docs: seq<Doc>, words: seq<Word>): seq<string>
  {
    if docs == [] then []
    else
      var last := docs[|docs| - 1];
      MatchDigests(docs[..|docs| - 1], words) + if HasAll(last, words) then [Digest(last)] else []
  }

  lemma AscendingSnoc(p: Postings, n: nat)
    requires Increasing(p) && forall d :: d in p ==> d < n
    ensures Increasing(p + [n])
  {
    assert forall i :: 0 <= i < |p| ==> p[i] in p;
  }

  lemma MatchNumbersMember(docs: seq<Doc>, front: seq<Doc>, words: seq<Word>, p: Postings, d: nat)
    requires docs != [] && front == docs[..|docs| - 1] && p == MatchNumbers(front, words)
    requires d in p <==> 1 <= d <= |front| && HasAll(front[d - 1], words)
    ensures d in MatchNumbers(docs, words) <==> 1 <= d <= |docs| && HasAll(docs[d - 1], words)
  {
    assert d in MatchNumbers(docs, words) <==> d in p || (d == |docs| && HasAll(docs[|docs| - 1], words));
  }

  lemma {:induction false} MatchNumbersAscend(docs: seq<Doc>, words: seq<Word>)
    ensures Increasing(MatchNumbers(docs, words))
    ensures forall d :: d in MatchNumbers(docs, words) ==> d <= |docs|
  {
    if docs != [] {
      MatchNumbersAscend(docs[..|docs| - 1], words);
      AscendingSnoc(MatchNumbers(docs[..|docs| - 1], words), |docs|);
    }
  }

  lemma {:induction false} MatchNumbersMean(docs: seq<Doc>, words: seq<Word>, d: nat)
    ensures d in MatchNumbers(docs, words) <==> 1 <= d <= |docs| && HasAll(docs[d - 1], words)
  {
    if docs != [] {
      var front := docs[..|docs| - 1];
      MatchNumbersMean(front, words, d);
      MatchNumbersMember(docs, front, words, MatchNumbers(front, words), d);
    }
  }

  lemma LastIsGreatest(p: Postings, d: nat)
    requires Increasing(p) && d in p
    ensures d <= p[|p| - 1]
  {
  }

  /** An ascending list is given by its members. */
  lemma {:induction false} AscendingUnique(a: Postings, b: Postings)
    requires Increasing(a) && Increasing(b) && forall d :: d in a <==> d in b
    ensures a == b
  {
    if a == [] {
      assert forall i :: 0 <= i < |b| ==> b[i] in b;
    } else {
      var x := a[|a| - 1];
      assert x in b;
      var y := b[|b| - 1];
      assert y in a;
      LastIsGreatest(a, y);
      LastIsGreatest(b, x);
      var c, d := a[..|a| - 1], b[..|b| - 1];
      assert a == c + [x] && b == d + [x];
      forall n ensures n in c <==> n in d {
        FrontMember(a, n);
        FrontMember(b, n);
      }
      AscendingUnique(c, d);
    }
  }

  lemma FrontMember(a: Postings, n: nat)
    requires Increasing(a) && a != []
    ensures n in a[..|a| - 1] <==> n in a && n != a[|a| - 1]
  {
    assert a == a[..|a| - 1] + [a[|a| - 1]];
  }

  lemma MatchNumbersAre(docs: seq<Doc>, words: seq<Word>, p: Postings)
    requires Increasing(p) && Increasing(MatchNumbers(docs, words))
    requires forall d :: d in p <==> 1 <= d <= |docs| && HasAll(docs[d - 1], words)
    ensures p == MatchNumbers(docs, words)
  {
    forall d: nat ensures d in p <==> d in MatchNumbers(docs, words) {
      MatchNumbersMean(docs, words, d);
    }
    AscendingUnique(p, MatchNumbers(docs, words));
  }

  lemma AnswerIsMatches(index: Index, docs: seq<Doc>, stop: set<Word>, words: seq<Word>)
    requires Indexes(index, docs, stop) && Asked(words, stop)
    ensures Answer(index, words) == MatchNumbers(docs, words)
  {
    AnswersDocuments(index, docs, stop, words);
    MatchNumbersAscend(docs, words);
    MatchNumbersAre(docs, words, Answer(index, words));
  }

  // ----- STEP 4 and STEP 5 -----

  /** The dummy result. */
  function Dummy(): (text: string)
    ensures |text| == DIGEST_MAX_LENGTH && forall i :: 0 <= i < |text| ==> text[i] == 'X'
  {
    seq(DIGEST_MAX_LENGTH, i => 'X')
  }

  ghost function Dummies(n: nat): seq<string>
  {
    seq(n, i => Dummy())
  }

  ghost predicate InRange(docs: Postings, digests: seq<string>)
  {
    forall i :: 0 <= i < |docs| ==> 1 <= docs[i] <= |digests|
  }

  ghost function Results(docs: Postings, digests: seq<string>): (r: seq<string>)
    requires InRange(docs, digests)
  {
    seq(|docs|, i requires 0 <= i < |docs| && InRange(docs, digests) => digests[docs[i] - 1])
  }

  /** Ten results: those of the page, as far as there are any, then dummies. */
  ghost function PageOf(docs: Postings, digests: seq<string>, page: nat): (r: seq<string>)
    requires page >= 1 && InRange(docs, digests)
    ensures |r| == PAGE
  {
    var from := (page - 1) * PAGE;
    seq(PAGE, i requires 0 <= i < PAGE && InRange(docs, digests) =>
      if from + i < |docs| then digests[docs[from + i] - 1] else Dummy())
  }

  /** The page; none for a number below 1, with which the entries before the list are read. */
  method AnswerPage(docs: Postings, digests: seq<string>, page: int) returns (results: Option<seq<string>>)
    requires InRange(docs, digests)
    ensures results == if page >= 1 then Some(PageOf(docs, digests, page)) else None
  {
    if page < 1 {
      return None;
    }
    var entries := FillPage(docs, digests, page);
    results := Some(entries);
  }

  method FillPage(docs: Postings, digests: seq<string>, page: nat) returns (results: seq<string>)
    requires page >= 1 && InRange(docs, digests)
    ensures results == PageOf(docs, digests, page)
  {
    var left := PAGE;
    results := [];
    var from := (page - 1) * PAGE;
    ghost var goal := PageOf(docs, digests, page);
    if from < |docs| {
      var d := from;
      while d < |docs| && left > 0
        invariant from <= d <= |docs| && left == PAGE - (d - from) && 0 <= left
        invariant results == goal[..d - from]
      {
        results := results + [digests[docs[d] - 1]];
        left := left - 1;
        d := d + 1;
      }
    }
    while left > 0
      invariant 0 <= left && |results| == PAGE - left
      invariant results == goal[..|results|] && (left > 0 ==> |docs| <= from + |results|)
    {
      results := results + [Dummy()];
      left := left - 1;
    }
  }

  /** Every answer over the index of a document list has a digest: the access is in range. */
  lemma AnswerInRange(t: Table, docs: seq<Doc>, stop: set<Word>, words: seq<Word>)
    requires TableOf(t, docs, stop)
    ensures Ascending(t.index) && InRange(Answer(t.index, words), t.digests)
  {
    IndexAscends(t.index, docs, stop);
    var answer := Answer(t.index, words);
    forall i | 0 <= i < |answer| ensures 1 <= answer[i] <= |t.digests| {
      var d, w := answer[i], words[|words| - 1];
      assert d in answer;
      AnswerMeans(t.index, words, d);
      assert d in At(t.index, w);
      DocsWithMeans(docs, w);
    }
  }

  /** Pages 1 to n, one after the other. */
  ghost function AllPages(docs: Postings, digests: seq<string>, n: nat): seq<string>
    requires InRange(docs, digests)
  {
    if n == 0 then [] else AllPages(docs, digests, n - 1) + PageOf(docs, digests, n)
  }

  /** How many of `size` results the first `n` pages hold. */
  function Cut(size: nat, n: nat): nat
  {
    if size <= n * PAGE then size else n * PAGE
  }

  /** The first results, as many as `n` pages hold, then dummies. */
  ghost function Paged(results: seq<string>, n: nat): (r: seq<string>)
    ensures |r| == n * PAGE
  {
    results[..Cut(|results|, n)] + Dummies(n * PAGE - Cut(|results|, n))
  }

  /** The pages, put together, are the results in order, without gap or repeat, then dummies. */
  lemma {:induction false} PagesAreTheAnswer(docs: Postings, digests: seq<string>, n: nat)
    requires InRange(docs, digests)
    ensures AllPages(docs, digests, n) == Paged(Results(docs, digests), n)
  {
    if n > 0 {
      PagesAreTheAnswer(docs, digests, n - 1);
      var before, goal := Paged(Results(docs, digests), n - 1), Paged(Results(docs, digests), n);
      forall i | 0 <= i < n * PAGE ensures (before + PageOf(docs, digests, n))[i] == goal[i] {
      }
    }
  }

  /** A longer digest table has the same results. */
  lemma ResultsPrefix(docs: Postings, digests: seq<string>, more: seq<string>)
    requires InRange(docs, digests)
    ensures InRange(docs, digests + more) && Results(docs, digests + more) == Results(docs, digests)
  {
  }

  lemma ResultsSnoc(docs: Postings, d: nat, digests: seq<string>)
    requires InRange(docs, digests) && 1 <= d <= |digests|
    ensures InRange(docs + [d], digests) && Results(docs + [d], digests) == Results(docs, digests) + [digests[d - 1]]
  {
  }

  lemma {:induction false} MatchResults(docs: seq<Doc>, words: seq<Word>)
    ensures InRange(MatchNumbers(docs, words), Digests(docs))
    ensures Results(MatchNumbers(docs, words), Digests(docs)) == MatchDigests(docs, words)
  {
    if docs != [] {
      var front, last := docs[..|docs| - 1], docs[|docs| - 1];
      MatchResults(front, words);
      MatchResultsStep(docs, front, last, words, MatchNumbers(front, words), Digests(front));
    }
  }

  lemma MatchResultsStep(docs: seq<Doc>, front: seq<Doc>, last: Doc, words: seq<Word>, p: Postings,
                         digests: seq<string>)
    requires docs != [] && front == docs[..|docs| - 1] && last == docs[|docs| - 1]
    requires p == MatchNumbers(front, words) && digests == Digests(front) && InRange(p, digests)
    requires Results(p, digests) == MatchDigests(front, words)
    ensures InRange(MatchNumbers(docs, words), Digests(docs))
    ensures Results(MatchNumbers(docs, words), Digests(docs)) == MatchDigests(docs, words)
  {
    assert Digests(docs) == digests + [Digest(last)];
    ResultsPrefix(p, digests, [Digest(last)]);
    if HasAll(last, words) {
      assert MatchNumbers(docs, words) == p + [|docs|];
      ResultsSnoc(p, |docs|, Digests(docs));
    } else {
      assert MatchNumbers(docs, words) == p + [] == p;
    }
  }

  /** The first `n` pages of a querier over the table of `docs`: the digests of the documents
      that hold all words, in their order, cut after `n` pages, then dummies. */
  lemma PagesOfTable(t: Table, docs: seq<Doc>, stop: set<Word>, words: seq<Word>, n: nat)
    requires TableOf(t, docs, stop) && Asked(words, stop)
    ensures InRange(Answer(t.index, words), t.digests)
    ensures AllPages(Answer(t.index, words), t.digests, n) == Paged(MatchDigests(docs, words), n)
  {
    AnswerIsMatches(t.index, docs, stop, words);
    MatchResults(docs, words);
    PagesAreTheAnswer(MatchNumbers(docs, words), t.digests, n);
  }

  /** Page `page` of the results. */
  ghost function PageIn(results: seq<string>, page: nat): (r: seq<string>)
    requires page >= 1
    ensures |r| == PAGE
  {
    Paged(results, page)[(page - 1) * PAGE..]
  }

  /** One page of such a querier. */
  lemma PageOfTable(t: Table, docs: seq<Doc>, stop: set<Word>, words: seq<Word>, page: nat)
    requires TableOf(t, docs, stop) && Asked(words, stop) && page >= 1
    ensures InRange(Answer(t.index, words), t.digests)
    ensures PageOf(Answer(t.index, words), t.digests, page) == PageIn(MatchDigests(docs, words), page)
  {
    PagesOfTable(t, docs, stop, words, page - 1);
    PagesOfTable(t, docs, stop, words, page);
    LastPage(Answer(t.index, words), t.digests, page, MatchDigests(docs, words));
  }

  lemma LastPage(answer: Postings, digests: seq<string>, page: nat, results: seq<string>)
    requires page >= 1 && InRange(answer, digests)
    requires AllPages(answer, digests, page - 1) == Paged(results, page - 1)
    requires AllPages(answer, digests, page) == Paged(results, page)
    ensures PageOf(answer, digests, page) == PageIn(results, page)
  {
  }

  /** The page that a querier returns for the looked-up words. */
  ghost predicate Returns(results: Option<seq<string>>, t: Table, words: seq<Word>, page: int)
  {
    && InRange(Answer(t.index, words), t.digests)
    && results == if page >= 1 then Some(PageOf(Answer(t.index, words), t.digests, page)) else None
  }

  /** A querier's whole answer, over the table of some document list: the words after the first
      32 are not looked up.  For one or two words that are not stop words it is the page of the
      digests of the documents that hold them all. */
  method DoQuery(t: Table, words: seq<Word>, page: int, ghost docs: seq<Doc>, ghost stop: set<Word>)
    returns (results: Option<seq<string>>)
    requires TableOf(t, docs, stop)
    ensures |words| <= WORDS_MAX ==> Returns(results, t, words, page)
    ensures |words| > WORDS_MAX ==> Returns(results, t, words[..WORDS_MAX], page)
    ensures page < 1 <==> results.None?
    ensures Asked(words, stop) && page >= 1 ==> results == Some(PageIn(MatchDigests(docs, words), page))
  {
    var asked := if |words| > WORDS_MAX then words[..WORDS_MAX] else words;
    AnswerInRange(t, docs, stop, asked);
    var answer := AnswerQuery(t.index, asked);
    results := AnswerPage(answer, t.digests, page);
    if Asked(words, stop) && page >= 1 {
      PageOfTable(t, docs, stop, words, page);
    }
  }

  /** Entry `r` of page `page` is a result, not padding. */
  ghost predicate HasEntry(answer: Postings, page: nat, r: nat)
  {
    page >= 1 && r < PAGE && (page - 1) * PAGE + r < |answer|
  }

  /** It reads `text`. */
  ghost predicate OnPage(answer: Postings, digests: seq<string>, page: nat, r: nat, text: string)
  {
    HasEntry(answer, page, r) && InRange(answer, digests) && PageOf(answer, digests, page)[r] == text
  }

  /** Every answer is on some page, and every result on a page is an answer. */
  lemma AnswerOnPage(answer: Postings, digests: seq<string>, d: nat) returns (page: nat, r: nat)
    requires InRange(answer, digests) && d in answer
    ensures 1 <= d <= |digests| && OnPage(answer, digests, page, r, digests[d - 1])
  {
    var q :| 0 <= q < |answer| && answer[q] == d;
    page, r := q / PAGE + 1, q % PAGE;
  }

  lemma PageHoldsAnswer(answer: Postings, digests: seq<string>, page: nat, r: nat) returns (d: nat)
    requires InRange(answer, digests) && HasEntry(answer, page, r)
    ensures d in answer && 1 <= d <= |digests| && OnPage(answer, digests, page, r, digests[d - 1])
  {
    d := answer[(page - 1) * PAGE + r];
  }

  /** The results that a client can tell from the padding. */
  ghost function Shown(results: seq<string>): seq<string>
  {
    if results == [] then []
    else
      var last := results[|results| - 1];
      Shown(results[..|results| - 1]) + if last == Dummy() then [] else [last]
  }

  lemma {:induction false} ShownPadded(results: seq<string>, n: nat)
    ensures Shown(results + Dummies(n)) == Shown(results)
  {
    if n == 0 {
      assert results + Dummies(0) == results;
    } else {
      ShownPadded(results, n - 1);
      assert (results + Dummies(n))[..|results| + n - 1] == results + Dummies(n - 1);
    }
  }

  lemma {:induction false} ShownAll(results: seq<string>)
    ensures |Shown(results)| <= |results|
    ensures Shown(results) == results <==> Dummy() !in results
  {
    if results != [] {
      var front, last := results[..|results| - 1], results[|results| - 1];
      assert results == front + [last];
      ShownAll(front);
    }
  }

  lemma ShownPages(results: seq<string>, n: nat)
    ensures var first := results[..Cut(|results|, n)]; Shown(Paged(results, n)) == first <==> Dummy() !in first
  {
    var first := results[..Cut(|results|, n)];
    ShownPadded(first, n * PAGE - Cut(|results|, n));
    ShownAll(first);
  }

  /** What a client sees of the first `n` pages when it leaves out the dummies is what was
      found, cut after `n` pages, exactly if no digest among that reads like a dummy. */
  lemma ClientSees(t: Table, docs: seq<Doc>, stop: set<Word>, words: seq<Word>, n: nat, found: seq<string>)
    requires TableOf(t, docs, stop) && Asked(words, stop) && found == MatchDigests(docs, words)
    ensures InRange(Answer(t.index, words), t.digests)
    ensures var first := found[..Cut(|found|, n)];
      Shown(AllPages(Answer(t.index, words), t.digests, n)) == first <==> Dummy() !in first
  {
    PagesOfTable(t, docs, stop, words, n);
    ShownPages(found, n);
  }

  // ----- the client's page numbers -----

  /** The page to ask of each querier. */
  function ShardPage(page: nat): nat
  {
    (page + INDEX_POOL_MAX - 1) / INDEX_POOL_MAX
  }

  /** Whose answer to show, counted from 1. */
  function Shard(page: nat): nat
  {
    if page % INDEX_POOL_MAX == 0 then INDEX_POOL_MAX else page % INDEX_POOL_MAX
  }

  /** Client pages from 1 on stand one to one for shards and pages of shards. */
  lemma ClientPages(page: nat, shard: nat, shardPage: nat)
    requires page >= 1 && shardPage >= 1 && 1 <= shard <= INDEX_POOL_MAX
    ensures ShardPage(page) >= 1 && 1 <= Shard(page) <= INDEX_POOL_MAX
    ensures Shard(page) == shard && ShardPage(page) == shardPage <==> page == (shardPage - 1) * INDEX_POOL_MAX + shard
  {
    var q, m := page / INDEX_POOL_MAX, page % INDEX_POOL_MAX;
    assert page == q * INDEX_POOL_MAX + m;
    assert ShardPage(page) == if m == 0 then q else q + 1;
  }
}
