/** Cutting one element out of an XML reply without re-encoding it. */
module XmlUtil {
  import opened Text
  import opened Wrappers

  /** What may follow the name in an opening tag. */
  predicate EndsName(c: char) {
    c == '>' || c == ' ' || c == '\t' || c == '\n' || c == '\r' || c == '/'
  }

  /** An opening tag of the element, not of one whose name only starts alike. */
  predicate OpensAt(s: string, local: string, i: int) {
    && At(s, i, "<" + local)
    && i + 1 + |local| < |s|
    && EndsName(s[i + 1 + |local|])
  }

  function CloseTag(local: string): string {
    "</" + local + ">"
  }

  /** What rawElement returns once the opening tag is known. */
  function ElementFrom(s: string, local: string, start: nat): Option<string>
    requires start <= |s|
  {
    var end := LastIndex(s, CloseTag(local));
    if end < start then
      var selfEnd := Index(s[start..], "/>");
      if selfEnd >= 0 then Some(s[start..start + selfEnd + 2]) else None
    else Some(s[start..end + |CloseTag(local)|])
  }

  /** No opening tag starts before `n`. */
  ghost predicate NoneBefore(s: string, local: string, n: int) {
    forall j :: 0 <= j < n ==> !OpensAt(s, local, j)
  }

  /** The search loop: the first opening tag, or -1. */
  method FindOpening(s: string, local: string) returns (start: int)
    ensures start >= 0 ==> OpensAt(s, local, start) && NoneBefore(s, local, start)
    ensures start < 0 ==> start == -1 && NoneBefore(s, local, |s|)
  {
    var i := 0;
    while true
      invariant 0 <= i <= |s|
      invariant NoneBefore(s, local, i)
      decreases |s| - i
    {
      var idx := Index(s[i..], "<" + local);
      NextTag(s, local, i);
      if idx < 0 { return -1; }
      idx := idx + i;
      var next := idx + 1 + |local|;
      if next < |s| && EndsName(s[next]) {
        return idx;
      }
      i := idx + 1;
    }
  }

  method RawElement(s: string, local: string) returns (r: Option<string>)
    ensures NoneBefore(s, local, |s|) ==> r == None
    ensures forall i: nat :: OpensAt(s, local, i) && NoneBefore(s, local, i) ==> r == ElementFrom(s, local, i)
  {
    var start := FindOpening(s, local);
    FirstOpeningUnique(s, local, start);
    if start < 0 { return None; }
    r := CutElement(s, local, start);
  }

  method CutElement(s: string, local: string, start: nat) returns (r: Option<string>)
    requires start <= |s|
    ensures r == ElementFrom(s, local, start)
  {
    var closeTag := CloseTag(local);
    var end := LastIndex(s, closeTag);
    if end < start {
      var selfEnd := Index(s[start..], "/>");
      if selfEnd >= 0 { return Some(s[start..start + selfEnd + 2]); }
      return None;
    }
    return Some(s[start..end + |closeTag|]);
  }

  lemma FirstOpeningUnique(s: string, local: string, start: int)
    requires NoneBefore(s, local, if start < 0 then |s| else start)
    ensures forall i: nat :: OpensAt(s, local, i) && NoneBefore(s, local, i) ==> 0 <= start && i >= start
    ensures start >= 0 && OpensAt(s, local, start) ==> start < |s|
    ensures start >= 0 && OpensAt(s, local, start) ==>
              forall i: nat :: OpensAt(s, local, i) && NoneBefore(s, local, i) ==> i == start
  {
  }

  /** Searching the rest skips no tag. */
  lemma NextTag(s: string, local: string, i: nat)
    requires i <= |s|
    ensures var k := Index(s[i..], "<" + local);
            && (k >= 0 ==> At(s, i + k, "<" + local))
            && forall j :: i <= j && (k < 0 || j < i + k) ==> !At(s, j, "<" + local)
  {
    var tag, rest := "<" + local, s[i..];
    assert s == s[..i] + rest;
    IndexFirst(rest, tag);
    var k := Index(rest, tag);
    if k >= 0 { AtRight(s[..i], rest, k, tag); }
    forall j | i <= j && (k < 0 || j < i + k) ensures !At(s, j, tag) {
      AtRight(s[..i], rest, j - i, tag);
    }
  }

  // ---------- what is cut out ----------

  /** The result is a piece of the reply that starts with the opening tag and ends
      with a closing tag or a self-closing end. */
  lemma ElementIsVerbatim(s: string, local: string, start: nat)
    requires OpensAt(s, local, start) && ElementFrom(s, local, start).Some?
    ensures var e := ElementFrom(s, local, start).value;
            && At(s, start, e)
            && (EndsWith(e, "/>") || EndsWith(e, CloseTag(local)))
  {
    var closeTag := CloseTag(local);
    LastIndexLast(s, closeTag);
    var end := LastIndex(s, closeTag);
    if end < start {
      SelfClosingCut(s, start);
    } else {
      CutEndsWith(s, start, end, closeTag);
    }
  }

  predicate EndsWith(e: string, t: string) {
    |t| <= |e| && e[|e| - |t|..] == t
  }

  lemma SelfClosingCut(s: string, start: nat)
    requires start <= |s| && Index(s[start..], "/>") >= 0
    ensures var n := Index(s[start..], "/>") + 2;
            start + n <= |s| && At(s, start, s[start..start + n]) && EndsWith(s[start..start + n], "/>")
  {
    var rest := s[start..];
    IndexFirst(rest, "/>");
    var n := Index(rest, "/>");
    CutEndsWith(rest, 0, n, "/>");
    assert rest[0..n + 2] == s[start..start + n + 2];
  }

  lemma CutEndsWith(s: string, start: nat, end: nat, t: string)
    requires start <= end && At(s, end, t)
    ensures EndsWith(s[start..end + |t|], t)
  {
    assert s[start..end + |t|] == s[start..end] + t;
  }

  /** Where the last closing tag of a reply lies: in what follows the element if that
      holds one, and at the end of the element otherwise. */
  lemma LastCloseTag(front: string, post: string, local: string)
    requires '<' !in local
    ensures var closeTag := CloseTag(local);
            var end := LastIndex(front + closeTag + post, closeTag);
            if Contains(post, closeTag) then end > |front| else end == |front|
  {
    var closeTag := CloseTag(local);
    var s := front + closeTag + post;
    LastIndexLast(s, closeTag);
    var end := LastIndex(s, closeTag);
    assert s[|front|..|front| + |closeTag|] == closeTag;
    assert At(s, |front|, closeTag);
    if Contains(post, closeTag) {
      var j :| 0 <= j <= |post| && At(post, j, closeTag);
      AtRight(front + closeTag, post, j, closeTag);
      assert At(s, |front| + |closeTag| + j, closeTag);
    } else if end > |front| {
      LaterCloseTag(front, post, local, end);
    }
  }

  lemma LaterCloseTag(front: string, post: string, local: string, p: nat)
    requires '<' !in local && p > |front|
    requires At(front + CloseTag(local) + post, p, CloseTag(local))
    ensures Contains(post, CloseTag(local))
  {
    var closeTag := CloseTag(local);
    var j := p - |front| - |closeTag|;
    AtChars(front + closeTag + post, p, closeTag);
    assert closeTag[0] == '<' && (front + closeTag + post)[p + 0] == '<';
    if j < 0 {
      TagStartsOnce(local, p - |front|);
    } else {
      AtRight(front + closeTag, post, j, closeTag);
    }
  }

  lemma TagStartsOnce(local: string, k: int)
    requires '<' !in local && 0 < k < |CloseTag(local)|
    ensures CloseTag(local)[k] != '<'
  {
    var c := CloseTag(local);
    assert c[0] == '<' && c[1] == '/' && c[|c| - 1] == '>';
    assert 2 <= k < |c| - 1 ==> c[k] == local[k - 2];
  }

  /** An element put into a document is cut out again exactly when no closing tag of
      the same name follows it: the last closing tag is taken, not the matching one. */
  lemma CutOutIff(pre: string, attrs: string, body: string, post: string, local: string)
    requires '<' !in local
    requires attrs != "" && EndsName(attrs[0])
    ensures var elem := "<" + local + attrs + body + CloseTag(local);
            ElementFrom(pre + elem + post, local, |pre|) == Some(elem) <==> !Contains(post, CloseTag(local))
  {
    var closeTag := CloseTag(local);
    var inner := "<" + local + attrs + body;
    var elem := inner + closeTag;
    var s := pre + elem + post;
    assert s == (pre + inner) + closeTag + post;
    LastCloseTag(pre + inner, post, local);
    var end := LastIndex(s, closeTag);
    assert ElementFrom(s, local, |pre|) == Some(s[|pre|..end + |closeTag|]);
    assert s[|pre|..|pre| + |elem|] == elem;
    assert |s[|pre|..end + |closeTag|]| == end + |closeTag| - |pre|;
  }

  /** So of two sibling elements a reply yields both, with whatever lies between. */
  lemma SiblingsAreCutOutTogether(pre: string, one: string, between: string, two: string, local: string)
    requires '<' !in local
    requires one != "" && EndsName(one[0]) && two != "" && EndsName(two[0])
    ensures var first, second := "<" + local + one + CloseTag(local), "<" + local + two + CloseTag(local);
            ElementFrom(pre + first + between + second, local, |pre|) == Some(first + between + second)
  {
    var open, closeTag := "<" + local, CloseTag(local);
    var first, second := open + one + closeTag, open + two + closeTag;
    var s := pre + first + between + second;
    var front := pre + first + between + open + two;
    assert s == front + closeTag + "";
    NothingInEmpty(closeTag);
    LastCloseTag(front, "", local);
    assert LastIndex(s, closeTag) == |front|;
    assert s[|pre|..|front| + |closeTag|] == first + between + second;
  }

  // ---------- where the element is found ----------

  /** The tags that count as opening ones, letter by letter. */
  lemma OpensAtIff(s: string, local: string, i: int)
    ensures OpensAt(s, local, i) <==>
              && 0 <= i && i + 1 + |local| < |s| && s[i] == '<' && s[i + 1..i + 1 + |local|] == local
              && s[i + 1 + |local|] in {'>', '/', ' ', '\t', '\n', '\r'}
  {
    if 0 <= i && i + 1 + |local| < |s| {
      var piece := s[i..i + 1 + |local|];
      assert piece[0] == s[i] && piece[1..] == s[i + 1..i + 1 + |local|];
      assert ("<" + local)[1..] == local;
      assert piece == [piece[0]] + piece[1..];
    }
  }

  /** Nothing in front of the element opens it: other elements whose names start alike
      may stand there. */
  ghost predicate NoneIn(pre: string, local: string) {
    forall j :: 0 <= j < |pre| ==> NotAt(pre, local, j)
  }

  predicate NotAt(pre: string, local: string, j: nat) {
    At(pre, j, "<" + local) ==>
      || j + 1 + |local| == |pre|
      || (j + 1 + |local| < |pre| && pre[j + 1 + |local|] !in {'>', '/', ' ', '\t', '\n', '\r'})
  }

  /** The first element of the name is found where it stands and cut out whole, whichever
      of the characters allowed there ends its name. */
  lemma ElementIsFound(pre: string, attrs: string, body: string, post: string, local: string)
    requires '<' !in local && NoneIn(pre, local) && !Contains(post, "</" + local + ">")
    requires attrs != "" && attrs[0] in {'>', '/', ' ', '\t', '\n', '\r'}
    ensures var elem := "<" + local + attrs + body + ("</" + local + ">");
            && OpensAt(pre + elem + post, local, |pre|) && NoneBefore(pre + elem + post, local, |pre|)
            && ElementFrom(pre + elem + post, local, |pre|) == Some(elem)
  {
    var rest := attrs + body + CloseTag(local) + post;
    var elem := "<" + local + attrs + body + CloseTag(local);
    FoundHere(pre, local, rest);
    assert pre + elem + post == pre + "<" + local + rest;
    CutOutIff(pre, attrs, body, post, local);
  }

  lemma FoundHere(pre: string, local: string, rest: string)
    requires '<' !in local && NoneIn(pre, local)
    requires rest != "" && rest[0] in {'>', '/', ' ', '\t', '\n', '\r'}
    ensures var s := pre + "<" + local + rest; OpensAt(s, local, |pre|) && NoneBefore(s, local, |pre|)
  {
    OpensHere(pre, local, rest);
    forall j | 0 <= j < |pre| ensures !OpensAt(pre + "<" + local + rest, local, j) {
      NotEarlier(pre, local, rest, j);
    }
  }

  lemma OpensHere(pre: string, local: string, rest: string)
    requires rest != "" && rest[0] in {'>', '/', ' ', '\t', '\n', '\r'}
    ensures OpensAt(pre + "<" + local + rest, local, |pre|)
  {
    var s := pre + "<" + local + rest;
    assert s[|pre|..|pre| + 1 + |local|] == "<" + local;
  }

  lemma NotEarlier(pre: string, local: string, rest: string, j: nat)
    requires '<' !in local && j < |pre| && NotAt(pre, local, j)
    ensures !OpensAt(pre + "<" + local + rest, local, j)
  {
    var s := pre + "<" + local + rest;
    var next := j + 1 + |local|;
    assert s[|pre|] == '<';
    if next <= |pre| {
      assert s[j..next] == pre[j..next];
      assert At(s, j, "<" + local) <==> At(pre, j, "<" + local);
      assert next < |pre| ==> s[next] == pre[next];
    } else {
      TagAcross(s, local, j, |pre|);
    }
  }

  /** A tag does not run across the start of another. */
  lemma TagAcross(s: string, local: string, j: nat, p: nat)
    requires '<' !in local && j < p < j + 1 + |local| && p < |s| && s[p] == '<'
    ensures !At(s, j, "<" + local)
  {
    var tag := "<" + local;
    assert tag[p - j] == local[p - j - 1];
    if j + |tag| <= |s| { assert s[j..j + |tag|][p - j] == s[p]; }
  }

  // ---------- elements without a closing tag ----------

  /** Without a closing tag after the opening one, the cut goes to the first "/>". */
  lemma CutAtSelfClosing(pre: string, rest: string, local: string)
    requires !Contains(rest, CloseTag(local))
    ensures ElementFrom(pre + rest, local, |pre|) ==
              if Contains(rest, "/>") then Some(rest[..Index(rest, "/>") + 2]) else None
  {
    var s, closeTag := pre + rest, CloseTag(local);
    LastIndexLast(s, closeTag);
    var end := LastIndex(s, closeTag);
    if end >= |pre| { AtRight(pre, rest, end - |pre|, closeTag); }
    assert s[|pre|..] == rest;
    IndexFirst(rest, "/>");
    if Index(rest, "/>") >= 0 {
      assert At(rest, Index(rest, "/>"), "/>");
      assert s[|pre|..|pre| + Index(rest, "/>") + 2] == rest[..Index(rest, "/>") + 2];
    }
  }

  /** The text of a tag up to its end holds no other tag and no end of one. */
  predicate TagText(local: string, attrs: string) {
    '<' !in local && '<' !in attrs && '>' !in local && '>' !in attrs && '/' !in local
  }

  /** A self-closing element is cut out again exactly when no closing tag of its name
      follows: one that does is taken for its own. */
  lemma SelfClosingIsCutOutIff(pre: string, attrs: string, post: string, local: string)
    requires TagText(local, attrs) && local != ""
    ensures var elem := "<" + local + attrs + "/>";
            ElementFrom(pre + elem + post, local, |pre|) == Some(elem) <==> !Contains(post, CloseTag(local))
  {
    var open := "<" + local + attrs;
    var elem := open + "/>";
    var s := pre + elem + post;
    assert s == pre + (elem + post);
    NoCloseTagIn(elem, post, local);
    if Contains(post, CloseTag(local)) {
      var j :| 0 <= j <= |post| && At(post, j, CloseTag(local));
      CutToLater(pre, elem, post, local, j);
    } else {
      CutAtSelfClosing(pre, elem + post, local);
      FirstEnd(open, post);
      assert (elem + post)[..|elem|] == elem;
    }
  }

  /** A later closing tag makes the cut longer than the element. */
  lemma CutToLater(pre: string, elem: string, post: string, local: string, j: nat)
    requires At(post, j, CloseTag(local))
    ensures ElementFrom(pre + elem + post, local, |pre|).Some?
    ensures |ElementFrom(pre + elem + post, local, |pre|).value| > |elem|
  {
    var s, closeTag := pre + elem + post, CloseTag(local);
    AtRight(pre + elem, post, j, closeTag);
    LastIndexLast(s, closeTag);
    assert LastIndex(s, closeTag) >= |pre + elem| + j;
  }

  /** A closing tag after a self-closing element lies behind it. */
  lemma NoCloseTagIn(elem: string, post: string, local: string)
    requires |elem| >= 3 && elem[0] == '<' && elem[1] != '/' && '<' !in elem[1..]
    ensures Contains(elem + post, CloseTag(local)) ==> Contains(post, CloseTag(local))
  {
    var closeTag := CloseTag(local);
    if i :| 0 <= i <= |elem + post| && At(elem + post, i, closeTag) {
      AtChars(elem + post, i, closeTag);
      assert (elem + post)[i + 0] == '<' && (elem + post)[i + 1] == '/';
      assert forall k :: 1 <= k < |elem| ==> elem[k] == elem[1..][k - 1];
      assert i >= |elem|;
      AtRight(elem, post, i - |elem|, closeTag);
      assert At(post, i - |elem|, closeTag);
    }
  }

  lemma FirstEnd(open: string, post: string)
    requires '>' !in open
    ensures Contains(open + "/>" + post, "/>") && Index(open + "/>" + post, "/>") == |open|
  {
    var s := open + "/>" + post;
    assert s[|open|..|open| + 2] == "/>";
    assert At(s, |open|, "/>");
    forall j | 0 <= j < |open| ensures !At(s, j, "/>") {
      if At(s, j, "/>") { EndIsBracket(s, j); }
    }
    FirstIndexUnique(s, "/>", |open|);
  }

  lemma EndIsBracket(s: string, j: nat)
    requires At(s, j, "/>")
    ensures j + 1 < |s| && s[j + 1] == '>'
  {
    AtChars(s, j, "/>");
    assert s[j + 1] == '>';
  }

  /** An opening tag that is never closed is cut at the end of its first self-closing
      child, which leaves it open. */
  lemma UnclosedIsCutAtChild(pre: string, attrs: string, text: string, child: string, post: string, local: string)
    requires '>' !in attrs + text + child && '>' !in local
    requires var rest := "<" + local + attrs + ">" + text + "<" + child + "/>" + post; !Contains(rest, CloseTag(local))
    requires attrs == "" || attrs[|attrs| - 1] != '/'
    requires local == "" || local[|local| - 1] != '/'
    ensures var rest := "<" + local + attrs + ">" + text + "<" + child + "/>" + post;
            ElementFrom(pre + rest, local, |pre|) == Some("<" + local + attrs + ">" + text + "<" + child + "/>")
  {
    var open, inner := "<" + local + attrs, text + "<" + child;
    var rest := "<" + local + attrs + ">" + text + "<" + child + "/>" + post;
    assert rest == open + ">" + inner + "/>" + post;
    CutAtSelfClosing(pre, rest, local);
    SecondEnd(open, inner, post);
    assert (open + ">" + inner + "/>" + post)[..|open + ">" + inner| + 2] == open + ">" + inner + "/>";
    assert open + ">" + inner + "/>" == "<" + local + attrs + ">" + text + "<" + child + "/>";
  }

  lemma SecondEnd(open: string, inner: string, post: string)
    requires open != "" && open[|open| - 1] != '/' && '>' !in open && '>' !in inner
    ensures var s := open + ">" + inner + "/>" + post;
            Contains(s, "/>") && Index(s, "/>") == |open + ">" + inner|
  {
    var n := |open + ">" + inner|;
    var s := open + ">" + inner + "/>" + post;
    assert s[n..n + 2] == "/>";
    assert At(s, n, "/>");
    forall j | 0 <= j < n ensures !At(s, j, "/>") {
      if At(s, j, "/>") { InnerEnd(open, inner, s, j); }
    }
    FirstIndexUnique(s, "/>", n);
  }

  lemma InnerEnd(open: string, inner: string, s: string, j: nat)
    requires '>' !in open && '>' !in inner && open != ""
    requires open + ">" + inner + "/" <= s && j < |open + ">" + inner| && At(s, j, "/>")
    ensures open[|open| - 1] == '/'
  {
    AtChars(s, j, "/>");
    var t := open + ">" + inner + "/";
    assert s[j + 0] == '/' && s[j + 1] == '>';
    assert s[j] == t[j] && s[j + 1] == t[j + 1];
    assert j + 1 == |open|;
  }

  lemma NothingInEmpty(pat: string)
    requires pat != ""
    ensures !Contains("", pat)
  {
  }
}
