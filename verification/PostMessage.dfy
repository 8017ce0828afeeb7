/** A post on its way from the client's prompt to the server's record: the client prints
    "[SP]author+content", the server strips every "[SP]" in place, cuts the rest at '+', and copies
    author and content into a 25-byte record.
    Models csieBulletinBoard/client.c and the "[SP]" branch and `removeSubstr` of
    csieBulletinBoard/server.c. */
module PostMessage {
  import opened Text

  const MARK := "[SP]"
  const FROM_LEN := 5
  const CONTENT_LEN := 20

  datatype Post = Post(from: string, content: string)

  // ----- removeSubstr ---------------------------------------------------------------------

  predicate MarkAt(s: string, p: nat) { p + 4 <= |s| && s[p..p + 4] == MARK }

  /** Does "[SP]" occur in `s` at or after `from`? */
  predicate Marked(s: string, from: nat) { exists p | from <= p < |s| :: MarkAt(s, p) }

  /** `strstr` from position `from`; the length of `s` when there is no match. */
  function StrStr(s: string, from: nat): (p: nat)
    requires from <= |s|
    ensures from <= p <= |s|
    ensures p < |s| ==> MarkAt(s, p)
    ensures forall q | from <= q < p :: !MarkAt(s, q)
    decreases |s| - from
  {
    if from == |s| || MarkAt(s, from) then from else StrStr(s, from + 1)
  }

  /** `s` after the loop has reached position `from`. After a removal at `p` the search goes on at
      `p + 1`, so a mark that has slid into position `p` survives. */
  function Removed(s: string, from: nat): string
    requires from <= |s|
    decreases |s|
  {
    var p := StrStr(s, from);
    if p == |s| then s
    else if p + 5 > |s| then s[..p]
    else Removed(s[..p] + s[p + 4..], p + 1)
  }

  /** The buffer holds a C string of length `n`. */
  ghost predicate Holds(buf: seq<char>, n: nat) { n < |buf| && buf[n] == NUL && NUL !in buf[..n] }

  lemma MarkChars(s: string, p: nat)
    ensures MarkAt(s, p) <==>
      p + 4 <= |s| && s[p] == '[' && s[p + 1] == 'S' && s[p + 2] == 'P' && s[p + 3] == ']'
  {
    if p + 4 <= |s| {
      assert s[p..p + 4] == [s[p], s[p + 1], s[p + 2], s[p + 3]];
    }
  }

  /** `strstr(match, "[SP]")`, reading on to the next NUL, at `e`. */
  method FindMark(buf: array<char>, match0: nat, ghost e: nat) returns (p: int)
    requires match0 <= e < buf.Length && buf[e] == NUL && NUL !in buf[match0..e]
    ensures p < 0 ==> forall q | match0 <= q < e :: !MarkAt(buf[..], q)
    ensures p >= 0 ==> match0 <= p && p + 4 <= e && MarkAt(buf[..], p)
    ensures p >= 0 ==> forall q | match0 <= q < p :: !MarkAt(buf[..], q)
  {
    p := match0;
    while buf[p] != NUL
      invariant match0 <= p <= e
      invariant forall q | match0 <= q < p :: !MarkAt(buf[..], q)
      decreases e - p
    {
      MarkChars(buf[..], p);
      if buf[p] == '[' && buf[p + 1] == 'S' && buf[p + 2] == 'P' && buf[p + 3] == ']' {
        return;
      }
      p := p + 1;
    }
    p := -1;
  }

  /** `strcat(string, match + 4)` once the string has been cut at `p`: the tail moves down over the
      mark. */
  method MoveDown(buf: array<char>, p: nat, ghost n: nat)
    requires p + 4 <= n < buf.Length && buf[n] == NUL && NUL !in buf[p + 4..n]
    modifies buf
    ensures buf[..] == old(buf[..p]) + old(buf[p + 4..n + 1]) + old(buf[n - 3..])
  {
    var k := p;
    while buf[k + 4] != NUL
      invariant p <= k <= n - 4
      invariant forall i | 0 <= i < p :: buf[i] == old(buf[i])
      invariant forall i | p <= i < k :: buf[i] == old(buf[i + 4])
      invariant forall i | k <= i < buf.Length :: buf[i] == old(buf[i])
      decreases n - k
    {
      buf[k] := buf[k + 4];
      k := k + 1;
    }
    assert k == n - 4;
    buf[k] := NUL;
    ghost var a, b, c := old(buf[..p]), old(buf[p + 4..n + 1]), old(buf[n - 3..]);
    assert buf[..p] == a && buf[p..n - 3] == b && buf[n - 3..] == c;
    assert buf[..] == buf[..p] + buf[p..n - 3] + buf[n - 3..];
  }

  /** Only the string's own characters matter to `strstr`. */
  lemma StrStrIs(buf: seq<char>, n: nat, from: nat, p: nat)
    requires n < |buf| && from <= p <= n && buf[n] == NUL
    requires forall q | from <= q < p :: !MarkAt(buf, q)
    requires p < n ==> p + 4 <= n && MarkAt(buf, p)
    ensures StrStr(buf[..n], from) == p
  {
    forall q | 0 <= q < n ensures MarkAt(buf[..n], q) ==> MarkAt(buf, q) {
      MarkChars(buf[..n], q);
      MarkChars(buf, q);
    }
    if p < n {
      MarkChars(buf[..n], p);
      MarkChars(buf, p);
    }
  }

  /** One round of `removeSubstr`: cut at `p` and close the gap. What was behind the old end stays
      in the buffer, and the search goes on at `p + 1` even when that lies behind the new end; `e`
      is the NUL it will stop at. */
  method RemoveOne(buf: array<char>, p: nat, ghost n: nat) returns (ghost e: nat)
    requires Holds(buf[..], n) && p + 4 <= n && MarkAt(buf[..], p)
    modifies buf
    ensures Holds(buf[..], n - 4) && buf[..n - 4] == old(buf[..n])[..p] + old(buf[..n])[p + 4..]
    ensures p < e < buf.Length && buf[e] == NUL && NUL !in buf[p + 1..e]
    ensures if p < n - 4 then e == n - 4 else e == p + 4
  {
    ghost var s := buf[..n];
    ghost var tail := buf[n - 3..];
    MarkChars(buf[..], p);
    MoveDown(buf, p, n);
    assert buf[..] == (s[..p] + s[p + 4..]) + ([NUL] + tail);
    assert buf[..n - 4] == s[..p] + s[p + 4..];
    assert buf[n - 3..] == tail;
    e := if p < n - 4 then n - 4 else p + 4;
  }

  /** Where the search stands at `at`: inside the string of length `n`, or one past its end, in
      three left-over characters. */
  ghost predicate Position(buf: seq<char>, n: nat, at: nat, e: nat) {
    && Holds(buf, n) && at <= e < |buf| && buf[e] == NUL && NUL !in buf[at..e]
    && (if at <= n then e == n else e == at + 3)
  }

  /** What `removeSubstr` still has to deliver. */
  ghost function Pending(buf: seq<char>, n: nat, at: nat): string
    requires n <= |buf|
  {
    if at <= n then Removed(buf[..n], at) else buf[..n]
  }

  lemma PendingOver(buf: seq<char>, n: nat, at: nat, e: nat)
    requires Position(buf, n, at, e) && forall q | at <= q < e :: !MarkAt(buf, q)
    ensures Pending(buf, n, at) == buf[..n]
  {
    if at <= n {
      StrStrIs(buf, n, at, n);
    }
  }

  lemma PendingStep(buf: seq<char>, buf': seq<char>, n: nat, at: nat, p: nat)
    requires Holds(buf, n) && at <= p && p + 4 <= n <= |buf'| + 4
    requires MarkAt(buf, p) && forall q | at <= q < p :: !MarkAt(buf, q)
    requires buf'[..n - 4] == buf[..n][..p] + buf[..n][p + 4..]
    ensures Pending(buf', n - 4, p + 1) == Pending(buf, n, at)
  {
    StrStrIs(buf, n, at, p);
    if p + 5 > n {
      assert buf'[..n - 4] == buf[..n][..p];
    }
  }

  method Round(buf: array<char>, at: nat, ghost n: nat, ghost e: nat) returns (p: int, ghost n': nat, ghost e': nat)
    requires Position(buf[..], n, at, e)
    modifies buf
    ensures p < 0 ==> n' == n && buf[..] == old(buf[..]) && Pending(buf[..], n, at) == buf[..n]
    ensures p >= 0 ==> at <= p && p + 4 <= n && n' == n - 4 && Position(buf[..], n', p + 1, e')
    ensures p >= 0 ==> Pending(buf[..], n', p + 1) == Pending(old(buf[..]), n, at)
  {
    n', e' := n, e;
    p := FindMark(buf, at, e);
    if p < 0 {
      PendingOver(buf[..], n, at, e);
    } else {
      e' := RemoveOne(buf, p, n);
      n' := n - 4;
      PendingStep(old(buf[..]), buf[..], n, at, p);
    }
  }

  /** `removeSubstr(buf, "[SP]")`, in place. */
  method RemoveMarks(buf: array<char>, ghost n0: nat) returns (ghost n: nat)
    requires Holds(buf[..], n0)
    modifies buf
    ensures n <= n0 && Holds(buf[..], n) && buf[..n] == Removed(old(buf[..n0]), 0)
  {
    n := n0;
    ghost var e := n0;
    var at := 0;
    while true
      invariant n <= n0 && Position(buf[..], n, at, e)
      invariant Pending(buf[..], n, at) == Removed(old(buf[..n0]), 0)
      decreases n0 + 5 - at
    {
      var p;
      p, n, e := Round(buf, at, n, e);
      if p < 0 {
        return;
      }
      at := p + 1;
    }
  }

  method StrLen(buf: array<char>, ghost n: nat) returns (len: nat)
    requires Holds(buf[..], n)
    ensures len == n
  {
    len := 0;
    while buf[len] != NUL
      invariant 0 <= len <= n
      decreases n - len
    {
      assert buf[..n][len] in buf[..n] || len == n;
      len := len + 1;
    }
  }

  // ----- printing and parsing -------------------------------------------------------------

  function Printed(p: Post): string { MARK + (p.from + ("+" + p.content)) }

  /** The server's reading of a message; `str1` and `str2` keep what the last message left there. */
  function Parsed(msg: string, str1: string, str2: string): Post {
    var fields := Tokens(Removed(msg, 0), '+');
    Post(if |fields| == 0 then str1 else fields[0], if |fields| <= 1 then str2 else fields[|fields| - 1])
  }

  /** The `strtok` loop: the first field is the author, every later one overwrites the content. */
  method CutFields(line: string, str1: string, str2: string) returns (from: string, content: string)
    ensures var fields := Tokens(line, '+');
      && from == (if |fields| == 0 then str1 else fields[0])
      && content == (if |fields| <= 1 then str2 else fields[|fields| - 1])
  {
    from, content := str1, str2;
    var fields, c, i := Tokens(line, '+'), 0, 0;
    while i < |fields|
      invariant 0 <= i <= |fields| && c == (if i == 0 then 0 else 1)
      invariant from == if i == 0 then str1 else fields[0]
      invariant content == if i <= 1 then str2 else fields[i - 1]
    {
      if c == 0 {
        from := fields[i];
        c := c + 1;
      } else {
        content := fields[i];
      }
      i := i + 1;
    }
  }

  /** What author and content must be for the message to arrive as it was sent. Only a mark that
      opens the author is harmless: the search has already moved past it. */
  predicate Clean(p: Post) {
    IsField(p.from, '+') && IsField(p.content, '+') && !Marked(p.from, 1) && !Marked(p.content, 0)
  }

  lemma MarkInAppend(a: string, b: string, q: nat)
    ensures q + 4 <= |a| ==> MarkAt(a + b, q) == MarkAt(a, q)
    ensures q >= |a| ==> MarkAt(a + b, q) == MarkAt(b, q - |a|)
  {
    MarkChars(a + b, q);
    MarkChars(a, q);
    if q >= |a| {
      MarkChars(b, q - |a|);
    }
  }

  /** A mark cannot straddle the '+'. */
  lemma MarksApart(a: string, c: string, from: nat)
    requires from <= |a|
    ensures Marked(a + ("+" + c), from) <==> Marked(a, from) || Marked(c, 0)
  {
    var s := a + ("+" + c);
    forall q | from <= q < |s| && MarkAt(s, q) ensures Marked(a, from) || Marked(c, 0) {
      MarkChars(s, q);
      assert s[|a|] == '+';
      MarkInAppend(a, "+" + c, q);
      if q > |a| {
        MarkInAppend("+", c, q - |a|);
      }
    }
    forall q | from <= q < |a| && MarkAt(a, q) ensures Marked(s, from) {
      MarkInAppend(a, "+" + c, q);
    }
    forall q | 0 <= q < |c| && MarkAt(c, q) ensures Marked(s, from) {
      MarkInAppend("+", c, q + 1);
      MarkInAppend(a, "+" + c, |a| + 1 + q);
    }
  }

  lemma {:induction false} RemovedShrinks(s: string, from: nat)
    requires from <= |s|
    ensures |Removed(s, from)| <= |s|
    ensures Removed(s, from) == s <==> !Marked(s, from)
    ensures |Removed(s, from)| == |s| <==> !Marked(s, from)
    decreases |s|
  {
    var p := StrStr(s, from);
    if p < |s| && p + 5 <= |s| {
      RemovedShrinks(s[..p] + s[p + 4..], p + 1);
    }
  }

  /** The message's own mark goes first. */
  lemma RemovedPrinted(p: Post)
    requires p.from != ""
    ensures Removed(Printed(p), 0) == Removed(p.from + ("+" + p.content), 1)
  {
    var s, rest := Printed(p), p.from + ("+" + p.content);
    assert s[..4] == MARK;
    assert MarkAt(s, 0);
    assert s[..0] + s[4..] == rest;
  }

  /** The fields of a line and the delimiters between them fit into the line. */
  lemma {:induction false} FieldsFit(s: string)
    ensures var fields := Tokens(s, '+');
      && (|fields| >= 1 ==> |fields[0]| <= |s|)
      && (|fields| >= 2 ==> |fields[0]| + 1 + |fields[|fields| - 1]| <= |s|)
      && forall k | 0 <= k < |fields| :: IsField(fields[k], '+')
    decreases |s|
  {
    if s == "" {
    } else {
      if s[0] == '+' {
        FieldsFit(s[1..]);
      } else {
        var n := FieldLen(s, '+');
        FieldsFit(s[n..]);
        if n < |s| {
          FieldsFit(s[n + 1..]);
        }
      }
    }
  }

  /** A post reaches the record as its author wrote it, whatever earlier messages left in the
      buffers, if and only if it is clean. */
  lemma PostRoundTrip(p: Post)
    ensures (forall str1, str2 :: Parsed(Printed(p), str1, str2) == p) <==> Clean(p)
  {
    if Clean(p) {
      CleanArrives(p);
    } else {
      var str1, str2 := OthersFail(p);
    }
  }

  lemma CleanArrives(p: Post)
    requires Clean(p)
    ensures forall str1, str2 :: Parsed(Printed(p), str1, str2) == p
  {
    RemovedPrinted(p);
    MarksApart(p.from, p.content, 1);
    RemovedShrinks(p.from + ("+" + p.content), 1);
    TwoFields(p.from, p.content);
  }

  lemma OthersFail(p: Post) returns (str1: string, str2: string)
    requires !Clean(p)
    ensures Parsed(Printed(p), str1, str2) != p
  {
    str1, str2 := p.from + "x", p.content + "x";
    var line := Removed(Printed(p), 0);
    FieldsFit(line);
    if IsField(p.from, '+') && IsField(p.content, '+') {
      RemovedPrinted(p);
      MarksApart(p.from, p.content, 1);
      RemovedShrinks(p.from + ("+" + p.content), 1);
      assert |line| < |p.from| + 1 + |p.content|;
    }
  }

  lemma NoEarlierMark(base: string, q: nat)
    requires 1 <= q < |base| && !Marked(base, 1)
    ensures !MarkAt(base + MARK, q)
  {
    if q + 4 <= |base| {
      MarkInAppend(base, MARK, q);
    } else {
      MarkChars(base + MARK, q);
      assert (base + MARK)[|base|] == '[' && q < |base| < q + 4;
    }
  }

  /** The first mark of a line without marks, with one added at its end, is that one. */
  lemma OnlyMarkLast(base: string)
    requires base != "" && !Marked(base, 1)
    ensures Removed(base + MARK, 1) == base
  {
    var line := base + MARK;
    var p := StrStr(line, 1);
    assert line[|base|..|base| + 4] == MARK && MarkAt(line, |base|);
    if p < |base| {
      NoEarlierMark(base, p);
    }
    assert line[..|base|] == base;
  }

  /** A mark at the end of a content is always lost, whatever the buffers hold. */
  lemma EndMarkLost(p: Post)
    requires Clean(p)
    ensures forall str1, str2 :: Parsed(Printed(Post(p.from, p.content + MARK)), str1, str2) == p
  {
    var base := p.from + ("+" + p.content);
    RemovedPrinted(Post(p.from, p.content + MARK));
    assert p.from + ("+" + (p.content + MARK)) == base + MARK;
    MarksApart(p.from, p.content, 1);
    OnlyMarkLast(base);
    TwoFields(p.from, p.content);
  }

  /** For instance. */
  lemma ContentMarkLost()
    ensures Printed(Post("Ann", "see[SP]")) == "[SP]Ann+see[SP]"
    ensures forall str1, str2 :: Parsed(Printed(Post("Ann", "see[SP]")), str1, str2) == Post("Ann", "see")
  {
    EndMarkLost(Post("Ann", "see"));
    assert "see" + MARK == "see[SP]";
  }

  /** Pieces of a line with a mark between each two. */
  function Spliced(pieces: seq<string>): string
    requires pieces != []
  {
    if |pieces| == 1 then pieces[0] else pieces[0] + (MARK + Spliced(pieces[1..]))
  }

  function Joined(pieces: seq<string>): string { if pieces == [] then "" else pieces[0] + Joined(pieces[1..]) }

  /** No marks within the pieces, and none next to each other between them. */
  ghost predicate Separated(pieces: seq<string>) {
    && (forall k | 0 <= k < |pieces| :: !Marked(pieces[k], 0))
    && forall k | 0 < k < |pieces| - 1 :: pieces[k] != ""
  }

  /** `s` is `pre`, `f`, a mark and `rest`. */
  ghost predicate MarkAfter(s: string, pre: string, f: string, rest: string) {
    var p := |pre| + |f|;
    |s| == p + 4 + |rest| && s[..p] == pre + f && MarkAt(s, p) && s[p + 4..] == rest
  }

  lemma IsMarkAfter(pre: string, f: string, rest: string)
    ensures MarkAfter(pre + (f + (MARK + rest)), pre, f, rest)
  {
    var s := (pre + f) + (MARK + rest);
    assert pre + (f + (MARK + rest)) == s;
    assert s[|pre| + |f|..] == MARK + rest;
    assert (MARK + rest)[4..] == rest && (MARK + rest)[..4] == MARK;
    assert s[|pre| + |f|..][..4] == MARK;
  }

  /** No earlier mark than that one. */
  lemma NoMarkBefore(s: string, pre: string, f: string, rest: string, q: nat)
    requires MarkAfter(s, pre, f, rest) && |pre| <= q < |pre| + |f| && !Marked(f, 0)
    ensures !MarkAt(s, q)
  {
    var p := |pre| + |f|;
    MarkChars(s, p);
    MarkChars(s, q);
    MarkChars(f, q - |pre|);
    assert forall k | |pre| <= k < p :: s[k] == s[..p][k] == f[k - |pre|];
  }

  lemma FirstRemoved(s: string, pre: string, f: string, rest: string, from: nat, next: string)
    requires MarkAfter(s, pre, f, rest) && |pre| <= from <= |pre| + |f| && !Marked(f, 0) && rest != ""
    requires next == (pre + f) + rest
    ensures Removed(s, from) == Removed(next, |pre| + |f| + 1)
  {
    FirstMark(s, pre, f, rest, from);
    RemovedOnce(s, from, |pre| + |f|, next);
  }

  lemma LastRemoved(s: string, pre: string, f: string, from: nat)
    requires MarkAfter(s, pre, f, "") && |pre| <= from <= |pre| + |f| && !Marked(f, 0)
    ensures Removed(s, from) == pre + f
  {
    FirstMark(s, pre, f, "", from);
    RemovedOnce(s, from, |pre| + |f|, pre + f + "");
  }

  lemma FirstMark(s: string, pre: string, f: string, rest: string, from: nat)
    requires MarkAfter(s, pre, f, rest) && |pre| <= from && !Marked(f, 0)
    ensures MarkAt(s, |pre| + |f|) && forall q | from <= q < |pre| + |f| :: !MarkAt(s, q)
  {
    forall q | from <= q < |pre| + |f| ensures !MarkAt(s, q) {
      NoMarkBefore(s, pre, f, rest, q);
    }
  }

  lemma RemovedOnce(s: string, from: nat, p: nat, next: string)
    requires from <= p && MarkAt(s, p) && forall q | from <= q < p :: !MarkAt(s, q)
    requires next == s[..p] + s[p + 4..]
    ensures Removed(s, from) == if p + 4 == |s| then s[..p] else Removed(next, p + 1)
  {
    assert StrStr(s, from) == p;
  }

  lemma NothingSpliced(pieces: seq<string>)
    requires pieces != [] && Spliced(pieces) == ""
    ensures Joined(pieces) == ""
  {
    assert |pieces| == 1 && pieces[1..] == [];
  }

  lemma JoinedNext(pre: string, pieces: seq<string>)
    requires pieces != []
    ensures pre + Joined(pieces) == pre + pieces[0] + Joined(pieces[1..])
  {
  }

  /** Where the search has come to in a line of pieces. */
  ghost predicate AtPiece(pre: string, pieces: seq<string>, from: nat) {
    && pieces != [] && Separated(pieces)
    && (from == |pre| || (from == |pre| + 1 && pieces[0] != ""))
  }

  lemma NextPiece(pre: string, pieces: seq<string>, from: nat)
    requires AtPiece(pre, pieces, from) && |pieces| >= 2 && Spliced(pieces[1..]) != ""
    ensures AtPiece(pre + pieces[0], pieces[1..], |pre + pieces[0]| + 1)
  {
    var more := pieces[1..];
    assert forall k | 0 <= k < |more| :: more[k] == pieces[k + 1];
  }

  lemma FirstThenRest(s: string, pre: string, f: string, rest: string, joined: string, from: nat)
    requires MarkAfter(s, pre, f, rest) && |pre| <= from <= |pre| + |f| && !Marked(f, 0)
    requires rest == "" ==> joined == ""
    requires rest != "" ==> Removed(pre + f + rest, |pre + f| + 1) == pre + f + joined
    ensures from <= |s| && Removed(s, from) == pre + f + joined
  {
    if rest == "" {
      LastRemoved(s, pre, f, from);
      assert pre + f + joined == pre + f;
    } else {
      FirstRemoved(s, pre, f, rest, from, pre + f + rest);
    }
  }

  lemma PieceFacts(pre: string, pieces: seq<string>, from: nat)
    requires AtPiece(pre, pieces, from)
    ensures |pre| <= from <= |pre| + |pieces[0]| && !Marked(pieces[0], 0)
    ensures |pieces| == 1 ==> Spliced(pieces) == Joined(pieces) == pieces[0]
    ensures |pieces| > 1 ==> Spliced(pieces) == pieces[0] + (MARK + Spliced(pieces[1..]))
  {
    if |pieces| == 1 {
      assert pieces[1..] == [];
    }
  }

  lemma {:induction false} SplicedRemoved(pre: string, pieces: seq<string>, from: nat)
    requires AtPiece(pre, pieces, from)
    ensures from <= |pre + Spliced(pieces)| && Removed(pre + Spliced(pieces), from) == pre + Joined(pieces)
    decreases |pieces|
  {
    PieceFacts(pre, pieces, from);
    if |pieces| == 1 {
      LastPiece(pre, pieces[0], from);
    } else {
      var f, more := pieces[0], pieces[1..];
      if Spliced(more) == "" {
        NothingSpliced(more);
      } else {
        NextPiece(pre, pieces, from);
        SplicedRemoved(pre + f, more, |pre + f| + 1);
      }
      IsMarkAfter(pre, f, Spliced(more));
      FirstThenRest(pre + Spliced(pieces), pre, f, Spliced(more), Joined(more), from);
      JoinedNext(pre, pieces);
    }
  }

  lemma LastPiece(pre: string, f: string, from: nat)
    requires |pre| <= from <= |pre + f| && !Marked(f, 0)
    ensures Removed(pre + f, from) == pre + f
  {
    forall q | from <= q < |pre + f| ensures !MarkAt(pre + f, q) {
      MarkInAppend(pre, f, q);
    }
  }

  /** Marks that are not next to each other are all removed, and nothing else is. */
  lemma SeparatedMarksGo(pieces: seq<string>)
    requires pieces != [] && Separated(pieces)
    ensures Removed(Spliced(pieces), 0) == Joined(pieces)
  {
    assert "" + Spliced(pieces) == Spliced(pieces) && "" + Joined(pieces) == Joined(pieces);
    SplicedRemoved("", pieces, 0);
  }

  /** Of two marks next to each other the second one stays. */
  lemma SecondMarkStays(a: string, b: string)
    requires !Marked(a, 0) && !Marked(b, 0)
    ensures Removed(a + (MARK + (MARK + b)), 0) == a + (MARK + b)
  {
    assert "" + (a + (MARK + (MARK + b))) == a + (MARK + (MARK + b)) && "" + a == a;
    IsMarkAfter("", a, MARK + b);
    FirstRemoved(a + (MARK + (MARK + b)), "", a, MARK + b, 0, a + (MARK + b));
    assert a + MARK + b == a + (MARK + b);
    MarkAgain(a, b);
    RemovedShrinks(a + (MARK + b), |a| + 1);
  }

  lemma MarkAgain(a: string, b: string)
    requires !Marked(b, 0)
    ensures |a| + 1 <= |a + (MARK + b)| && !Marked(a + (MARK + b), |a| + 1)
  {
    forall q | |a| + 1 <= q < |a + (MARK + b)| ensures !MarkAt(a + (MARK + b), q) {
      MarkInAppend(a, MARK + b, q);
      MarkChars(MARK + b, q - |a|);
      if q - |a| >= 4 {
        MarkInAppend(MARK, b, q - |a|);
      }
    }
  }

  lemma TwoFields(from: string, content: string)
    requires IsField(from, '+') && IsField(content, '+')
    ensures Tokens(from + ("+" + content), '+') == [from, content]
  {
    TokensCons(from, "+" + content, '+');
    TokensSkip(content, '+');
    TokensCons(content, "", '+');
    assert content + "" == content;
  }

  // ----- the record -----------------------------------------------------------------------

  function StrCpy(buf: string, off: nat, s: string): string
    requires off + |s| < |buf|
  {
    buf[..off] + (s + ([NUL] + buf[off + |s| + 1..]))
  }

  function CString(buf: string): string { buf[..FieldLen(buf, NUL)] }

  /** The two fields lie next to each other; author first, then content, is how they are copied. */
  function Written(record: string, p: Post): string
    requires |record| == FROM_LEN + CONTENT_LEN && |p.from| < |record| && |p.content| < CONTENT_LEN
  {
    StrCpy(StrCpy(record, 0, p.from), FROM_LEN, p.content)
  }

  function ReadBack(record: string): Post
    requires |record| == FROM_LEN + CONTENT_LEN
  {
    Post(CString(record), CString(record[FROM_LEN..]))
  }

  /** As long as nothing is written behind the record, it gives back its post exactly if the author
      fits its field, or if what spills over is the content. */
  lemma RecordKeeps(record: string, p: Post)
    requires |record| == FROM_LEN + CONTENT_LEN && NUL !in p.from && NUL !in p.content
    requires |p.from| < |record| && |p.content| < CONTENT_LEN
    ensures ReadBack(Written(record, p)) == p <==> |p.from| < FROM_LEN || p.content == p.from[FROM_LEN..]
  {
    var w1 := StrCpy(record, 0, p.from);
    var w := Written(record, p);
    var rest := [NUL] + w1[FROM_LEN + |p.content| + 1..];
    assert w[FROM_LEN..] == p.content + rest;
    FieldLenOf(p.content, rest, NUL);
    assert (p.content + rest)[..|p.content|] == p.content;
    if |p.from| < FROM_LEN {
      assert w == p.from + w[|p.from|..] && w[|p.from|..][0] == NUL;
      FieldLenOf(p.from, w[|p.from|..], NUL);
    } else {
      AuthorSpills(record, p);
    }
  }

  /** An author that is too long runs on into the content. */
  lemma AuthorSpills(record: string, p: Post)
    requires |record| == FROM_LEN + CONTENT_LEN && NUL !in p.from && NUL !in p.content
    requires FROM_LEN <= |p.from| < |record| && |p.content| < CONTENT_LEN
    ensures CString(Written(record, p)) == p.from[..FROM_LEN] + p.content
    ensures p.from[..FROM_LEN] + p.content == p.from <==> p.content == p.from[FROM_LEN..]
  {
    var seen, w := p.from[..FROM_LEN] + p.content, Written(record, p);
    var rest := w[|seen|..];
    assert w == seen + rest && rest[0] == NUL;
    FieldLenOf(seen, rest, NUL);
    assert p.from == p.from[..FROM_LEN] + p.from[FROM_LEN..];
    assert seen[FROM_LEN..] == p.content;
  }
}
