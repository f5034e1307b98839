/** The hashtag rule of a chirp's text, and why the index-juggling scan of PostChirp obeys it. */
module Tags {
  import opened Primitives

  const HASH: byte := 35
  const SPACE: byte := 32

  /** `std::string::find(b, pos)`; None is npos. */
  function Find(s: Bytes, b: byte, pos: nat): (r: Option<nat>)
    ensures r.None? ==> forall i :: pos <= i < |s| ==> s[i] != b
    ensures r.Some? ==> pos <= r.value < |s| && s[r.value] == b
    ensures r.Some? ==> forall i :: pos <= i < r.value ==> s[i] != b
    decreases |s| - pos
  {
    if pos >= |s| then None
    else if s[pos] == b then Some(pos)
    else Find(s, b, pos + 1)
  }

  lemma FindIsFirst(s: Bytes, b: byte, pos: nat, i: nat)
    requires pos <= i < |s| && s[i] == b
    requires forall j :: pos <= j < i ==> s[j] != b
    ensures Find(s, b, pos) == Some(i)
  {
  }

  // ---------- the declarative rule ----------

  /** The words of a text: what lies between single spaces (so possibly empty). */
  function Split(s: Bytes): (words: seq<Bytes>)
    ensures |words| >= 1
    decreases |s|
  {
    match Find(s, SPACE, 0)
    case None => [s]
    case Some(i) => [s[..i]] + Split(s[i + 1..])
  }

  function Join(words: seq<Bytes>): Bytes {
    if |words| == 0 then []
    else if |words| == 1 then words[0]
    else words[0] + [SPACE] + Join(words[1..])
  }

  /** The tag of one word: what follows its first '#', unless that is empty. */
  function WordTag(w: Bytes): Option<Bytes> {
    match Find(w, HASH, 0)
    case None => None
    case Some(i) => if i + 1 == |w| then None else Some(w[i + 1..])
  }

  function OptionToSeq<T>(o: Option<T>): seq<T> {
    match o
    case None => []
    case Some(t) => [t]
  }

  function WordsTags(words: seq<Bytes>): seq<Bytes> {
    if words == [] then [] else OptionToSeq(WordTag(words[0])) + WordsTags(words[1..])
  }

  /** The tags of a text, in order of appearance. */
  function TagsOf(text: Bytes): seq<Bytes> {
    WordsTags(Split(text))
  }

  predicate HasTag(text: Bytes, tag: Bytes) {
    tag in TagsOf(text)
  }

  lemma SplitAt(s: Bytes, i: nat)
    requires Find(s, SPACE, 0) == Some(i)
    ensures Split(s) == [s[..i]] + Split(s[i + 1..])
  {
  }

  /** Split is the one list of space-free words that joins back to the text. */
  lemma {:induction false} SplitJoin(s: Bytes)
    ensures Join(Split(s)) == s
    ensures forall w :: w in Split(s) ==> SPACE !in w
    decreases |s|
  {
    match Find(s, SPACE, 0)
    case None =>
    case Some(i) =>
      SplitJoin(s[i + 1..]);
      assert Split(s)[1..] == Split(s[i + 1..]);
      assert s == s[..i] + [SPACE] + s[i + 1..];
  }

  lemma {:induction false} JoinSplit(words: seq<Bytes>)
    requires |words| >= 1
    requires forall w :: w in words ==> SPACE !in w
    ensures Split(Join(words)) == words
  {
    var s := Join(words);
    if |words| > 1 {
      JoinSplit(words[1..]);
      var i := |words[0]|;
      assert s[i] == SPACE && s[i + 1..] == Join(words[1..]) && s[..i] == words[0];
      assert words[0] in words;
      assert forall j :: 0 <= j < i ==> s[j] == words[0][j];
      FindIsFirst(s, SPACE, 0, i);
      SplitAt(s, i);
    } else {
      assert words[0] in words && words == [words[0]];
      assert Find(s, SPACE, 0).None?;
    }
  }

  /** A text has tag t exactly when t is the tag of one of its words... */
  lemma {:induction false} HasTagMeaning(words: seq<Bytes>, t: Bytes)
    ensures t in WordsTags(words) <==> exists w :: w in words && WordTag(w) == Some(t)
  {
    if words != [] {
      HasTagMeaning(words[1..], t);
      assert forall w :: w in words <==> w == words[0] || w in words[1..];
      assert words[0] in words;
    }
  }

  /** ... and that is when t is non-empty and the word reads x#t with no '#' in x. */
  lemma WordTagMeaning(w: Bytes, t: Bytes)
    ensures WordTag(w) == Some(t) <==> t != [] && exists x :: HASH !in x && w == x + [HASH] + t
  {
    if WordTag(w) == Some(t) {
      var i := Find(w, HASH, 0).value;
      assert w == w[..i] + [HASH] + t;
      assert HASH !in w[..i];
    }
    forall x | t != [] && HASH !in x && w == x + [HASH] + t
      ensures WordTag(w) == Some(t)
    {
      assert w[|x|] == HASH;
      assert forall j :: 0 <= j < |x| ==> w[j] == x[j];
      FindIsFirst(w, HASH, 0, |x|);
      assert w[|x| + 1..] == t;
    }
  }

  lemma HashWordHasTag(t: Bytes)
    requires t != [] && SPACE !in t
    ensures HasTag([HASH] + t, t)
  {
    var w := [HASH] + t;
    assert Join([w]) == w;
    JoinSplit([w]);
    assert w == [] + [HASH] + t;
    WordTagMeaning(w, t);
    assert w in [w];
    HasTagMeaning([w], t);
  }

  // ---------- why the scan obeys the rule ----------

  /** The tag of the word between base and i, found by position. */
  function TagIn(s: Bytes, base: nat, i: nat): seq<Bytes>
    requires base <= i <= |s|
  {
    match Find(s, HASH, base)
    case None => []
    case Some(h) => if h + 1 < i then [s[h + 1..i]] else []
  }

  /** The tags of the words from position base on, without cutting the text into words. */
  function TagsFrom(s: Bytes, base: nat): seq<Bytes>
    requires base <= |s|
    decreases |s| - base
  {
    match Find(s, SPACE, base)
    case None => TagIn(s, base, |s|)
    case Some(i) => TagIn(s, base, i) + TagsFrom(s, i + 1)
  }

  lemma TagInIsWordTag(s: Bytes, base: nat, i: nat)
    requires base <= i <= |s|
    ensures TagIn(s, base, i) == OptionToSeq(WordTag(s[base..i]))
  {
    var w := s[base..i];
    match Find(s, HASH, base)
    case None => assert Find(w, HASH, 0).None?;
    case Some(h) =>
      if h < i {
        FindIsFirst(w, HASH, 0, h - base);
        assert w[h - base + 1..] == s[h + 1..i];
      } else {
        assert Find(w, HASH, 0).None?;
      }
  }

  lemma {:induction false} TagsFromIsTagsOf(s: Bytes, base: nat)
    requires base <= |s|
    ensures TagsFrom(s, base) == TagsOf(s[base..])
    decreases |s| - base
  {
    match Find(s, SPACE, base)
    case None => LastWordTags(s, base);
    case Some(i) =>
      TagsFromIsTagsOf(s, i + 1);
      FirstWordTags(s, base, i, TagsOf(s[i + 1..]));
  }

  lemma {:induction false} LastWordTags(s: Bytes, base: nat)
    requires base <= |s| && Find(s, SPACE, base).None?
    ensures TagsFrom(s, base) == TagsOf(s[base..])
  {
    TagInIsWordTag(s, base, |s|);
    TagsOfLastWord(s, base);
  }

  lemma {:induction false} FirstWordTags(s: Bytes, base: nat, i: nat, later: seq<Bytes>)
    requires base <= |s| && Find(s, SPACE, base) == Some(i)
    requires TagsFrom(s, i + 1) == later == TagsOf(s[i + 1..])
    ensures TagsFrom(s, base) == TagsOf(s[base..])
  {
    TagInIsWordTag(s, base, i);
    TagsFromStep(s, base, i);
    TagsOfFirstWord(s, base, i);
  }

  lemma {:induction false} TagsFromStep(s: Bytes, base: nat, i: nat)
    requires base <= |s| && Find(s, SPACE, base) == Some(i)
    ensures TagsFrom(s, base) == TagIn(s, base, i) + TagsFrom(s, i + 1)
  {
  }

  lemma TagsOfLastWord(s: Bytes, base: nat)
    requires base <= |s| && Find(s, SPACE, base).None?
    ensures TagsOf(s[base..]) == OptionToSeq(WordTag(s[base..|s|]))
  {
    var rest := s[base..];
    assert rest == s[base..|s|];
    assert Find(rest, SPACE, 0).None?;
    assert WordsTags([rest]) == OptionToSeq(WordTag(rest)) + WordsTags([rest][1..]);
  }

  lemma TagsOfFirstWord(s: Bytes, base: nat, i: nat)
    requires base <= |s| && Find(s, SPACE, base) == Some(i)
    ensures TagsOf(s[base..]) == OptionToSeq(WordTag(s[base..i])) + TagsOf(s[i + 1..])
  {
    SplitFirstWord(s, base, i);
    var words := Split(s[base..]);
    assert words[0] == s[base..i] && words[1..] == Split(s[i + 1..]);
  }

  lemma SplitFirstWord(s: Bytes, base: nat, i: nat)
    requires base <= |s| && Find(s, SPACE, base) == Some(i)
    ensures Split(s[base..]) == [s[base..i]] + Split(s[i + 1..])
  {
    FindInSuffix(s, base, i);
    SplitAt(s[base..], i - base);
  }

  lemma FindInSuffix(s: Bytes, base: nat, i: nat)
    requires base <= |s| && Find(s, SPACE, base) == Some(i)
    ensures Find(s[base..], SPACE, 0) == Some(i - base)
    ensures s[base..][..i - base] == s[base..i] && s[base..][i - base + 1..] == s[i + 1..]
  {
    FindIsFirst(s[base..], SPACE, 0, i - base);
  }

  lemma {:induction false} NoHashNoTags(s: Bytes, base: nat)
    requires base <= |s| && Find(s, HASH, base).None?
    ensures TagsFrom(s, base) == []
    decreases |s| - base
  {
    match Find(s, SPACE, base)
    case None =>
    case Some(i) => NoHashNoTags(s, i + 1);
  }

  /** What one turn of the scan finds when the '#' is at h and its word ends at e. */
  function TagBetween(s: Bytes, h: nat, e: nat): seq<Bytes>
    requires h < e <= |s|
  {
    if h + 1 < e then [s[h + 1..e]] else []
  }

  /** A word with a '#' at h ends at `stop`: at a space or at the end of the text. */
  predicate WordEndsAt(s: Bytes, h: nat, stop: nat) {
    match Find(s, SPACE, h + 1)
    case None => stop == |s|
    case Some(e) => stop == e
  }

  /** Where the scan resumes after such a word. */
  function Resume(s: Bytes, stop: nat): (next: nat)
    requires stop <= |s|
    ensures stop <= next <= |s|
  {
    if stop < |s| then stop + 1 else |s|
  }

  /** What one turn of the scan settles: from a word boundary at base, the first '#' at h and the end
      of its word yield one tag at most, everything before h yields none, and the scan is again at
      a word boundary. */
  lemma {:induction false} ScanStep(s: Bytes, base: nat, h: nat, stop: nat)
    requires base <= |s| && Find(s, HASH, base) == Some(h) && WordEndsAt(s, h, stop)
    ensures h < stop <= |s|
    ensures TagsFrom(s, base) == TagBetween(s, h, stop) + TagsFrom(s, Resume(s, stop))
    decreases |s| - base
  {
    match Find(s, SPACE, base)
    case None =>
      ScanLastWord(s, base, h, stop);
    case Some(i) =>
      if i < h {
        SkipWord(s, base, i, h);
        ScanStep(s, i + 1, h, stop);
      } else {
        ScanWord(s, base, h, i, stop);
      }
  }

  lemma SkipWord(s: Bytes, base: nat, i: nat, h: nat)
    requires base <= |s| && Find(s, HASH, base) == Some(h) && Find(s, SPACE, base) == Some(i) && i < h
    ensures Find(s, HASH, i + 1) == Some(h)
    ensures TagsFrom(s, base) == TagsFrom(s, i + 1)
  {
    FindIsFirst(s, HASH, i + 1, h);
    assert TagIn(s, base, i) == [];
  }

  lemma ScanWord(s: Bytes, base: nat, h: nat, i: nat, stop: nat)
    requires base <= |s| && Find(s, HASH, base) == Some(h) && Find(s, SPACE, base) == Some(i) && h < i
    requires WordEndsAt(s, h, stop)
    ensures h < stop <= |s|
    ensures TagsFrom(s, base) == TagBetween(s, h, stop) + TagsFrom(s, Resume(s, stop))
  {
    FindIsFirst(s, SPACE, h + 1, i);
    assert stop == i;
    ScanWordAt(s, base, h, i);
  }

  lemma ScanWordAt(s: Bytes, base: nat, h: nat, i: nat)
    requires base <= |s| && Find(s, HASH, base) == Some(h) && Find(s, SPACE, base) == Some(i) && h < i
    ensures TagsFrom(s, base) == TagBetween(s, h, i) + TagsFrom(s, Resume(s, i))
  {
  }

  lemma ScanLastWord(s: Bytes, base: nat, h: nat, stop: nat)
    requires base <= |s| && Find(s, HASH, base) == Some(h) && Find(s, SPACE, base).None?
    requires WordEndsAt(s, h, stop)
    ensures h < stop <= |s|
    ensures TagsFrom(s, base) == TagBetween(s, h, stop) + TagsFrom(s, Resume(s, stop))
  {
    assert Find(s, SPACE, h + 1).None?;
    assert TagIn(s, base, |s|) == TagBetween(s, h, stop);
    NoHashNoTags(s, |s|);
    assert TagBetween(s, h, stop) + [] == TagBetween(s, h, stop);
  }

  /** The scan's loop invariant: the tags found so far and those still ahead are all the tags. */
  ghost predicate ScannedTo(s: Bytes, base: nat, done: seq<Bytes>) {
    base <= |s| && done + TagsFrom(s, base) == TagsFrom(s, 0)
  }

  lemma ScanTurn(s: Bytes, base: nat, done: seq<Bytes>, h: nat, stop: nat)
    requires ScannedTo(s, base, done) && Find(s, HASH, base) == Some(h) && WordEndsAt(s, h, stop)
    ensures h < stop <= |s|
    ensures ScannedTo(s, Resume(s, stop), done + TagBetween(s, h, stop))
  {
    ScanStep(s, base, h, stop);
    ScannedOn(s, base, done, TagBetween(s, h, stop), Resume(s, stop));
  }

  lemma ScannedOn(s: Bytes, base: nat, done: seq<Bytes>, found: seq<Bytes>, next: nat)
    requires ScannedTo(s, base, done) && next <= |s| && TagsFrom(s, base) == found + TagsFrom(s, next)
    ensures ScannedTo(s, next, done + found)
  {
    Regroup(done, found, TagsFrom(s, next));
  }

  lemma ScanBegins(s: Bytes)
    ensures ScannedTo(s, 0, [])
  {
    assert [] + TagsFrom(s, 0) == TagsFrom(s, 0);
  }

  lemma ScanEnds(s: Bytes, base: nat, done: seq<Bytes>)
    requires ScannedTo(s, base, done) && Find(s, HASH, base).None?
    ensures done == TagsOf(s)
  {
    NoHashNoTags(s, base);
    TagsFromIsTagsOf(s, 0);
    assert done + [] == done && s[0..] == s;
  }

  // ---------- the tag index ----------

  type TagIndex = map<Bytes, set<uint64>>

  function TagList(index: TagIndex, tag: Bytes): set<uint64> {
    if tag in index then index[tag] else {}
  }

  function AddTag(index: TagIndex, tag: Bytes, id: uint64): TagIndex {
    index[tag := TagList(index, tag) + {id}]
  }

  /** Files id under each of the tags, first tag first. */
  function AddTags(index: TagIndex, tags: seq<Bytes>, id: uint64): TagIndex {
    if tags == [] then index
    else AddTag(AddTags(index, tags[..|tags| - 1], id), tags[|tags| - 1], id)
  }

  lemma {:induction false} AddTagsLookup(index: TagIndex, tags: seq<Bytes>, id: uint64, t: Bytes)
    ensures TagList(AddTags(index, tags, id), t) == TagList(index, t) + (if t in tags then {id} else {})
  {
    if tags != [] {
      var init, last := tags[..|tags| - 1], tags[|tags| - 1];
      AddTagsLookup(index, init, id, t);
      assert tags == init + [last];
    }
  }

  lemma AddTagsOne(index: TagIndex, tag: Bytes, id: uint64)
    ensures AddTags(index, [tag], id) == AddTag(index, tag, id)
  {
    assert [tag][..0] == [];
  }

  lemma {:induction false} AddTagsConcat(index: TagIndex, tags: seq<Bytes>, more: seq<Bytes>, id: uint64)
    ensures AddTags(index, tags + more, id) == AddTags(AddTags(index, tags, id), more, id)
  {
    if more == [] {
      assert tags + more == tags;
    } else {
      AddTagsConcat(index, tags, more[..|more| - 1], id);
      assert (tags + more)[..|tags + more| - 1] == tags + more[..|more| - 1];
    }
  }
}
