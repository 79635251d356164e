/** Multi-line text as the renderer and the hit tester see it:
    `text.split('\n')` and the widest measured line. */
module Lines {

  /** No line break inside. */
  predicate IsLine(s: string) {
    '\n' !in s
  }

  /** `s.split('\n')`: never empty, one more piece than there are line breaks. */
  function Split(s: string): (r: seq<string>)
    ensures |r| >= 1
    ensures forall i :: 0 <= i < |r| ==> IsLine(r[i])
    decreases |s|
  {
    if |s| == 0 then [""]
    else
      var rest := Split(s[1..]);
      if s[0] == '\n' then [""] + rest
      else [[s[0]] + rest[0]] + rest[1..]
  }

  /** `lines.join('\n')`, the inverse of `Split`. */
  function Join(ls: seq<string>): string
    requires |ls| >= 1
  {
    if |ls| == 1 then ls[0] else ls[0] + "\n" + Join(ls[1..])
  }

  /** Splitting then joining gives back the text. */
  lemma {:induction false} JoinSplit(s: string)
    ensures Join(Split(s)) == s
    decreases |s|
  {
    if |s| > 0 {
      var c, tail := s[0], s[1..];
      JoinSplit(tail);
      var rest := Split(tail);
      assert Join(Split(s)) == [c] + Join(rest) by {
        if c == '\n' {
          BreakFirst(s);
        } else {
          CharFirst(s);
        }
      }
      assert s == [c] + tail;
    }
  }

  /** One step of `Split` when the text starts with a line break. */
  lemma BreakFirst(s: string)
    requires |s| > 0 && s[0] == '\n'
    ensures Join(Split(s)) == "\n" + Join(Split(s[1..]))
  {
    var r := Split(s);
    assert r == [""] + Split(s[1..]);
    assert r[1..] == Split(s[1..]);
  }

  /** One step of `Split` when the text starts with an ordinary character. */
  lemma CharFirst(s: string)
    requires |s| > 0 && s[0] != '\n'
    ensures Join(Split(s)) == [s[0]] + Join(Split(s[1..]))
  {
    var rest := Split(s[1..]);
    assert Split(s) == [[s[0]] + rest[0]] + rest[1..];
    JoinPrefixFirst(s[0], rest);
  }

  /** Prefixing the first line with a character prefixes the joined text. */
  lemma JoinPrefixFirst(c: char, ls: seq<string>)
    requires |ls| >= 1
    ensures Join([[c] + ls[0]] + ls[1..]) == [c] + Join(ls)
  {
    if |ls| > 1 {
      JoinPrefixMany(c, ls);
    }
  }

  lemma JoinPrefixMany(c: char, ls: seq<string>)
    requires |ls| > 1
    ensures Join([[c] + ls[0]] + ls[1..]) == [c] + Join(ls)
  {
    var r := [[c] + ls[0]] + ls[1..];
    assert r[1..] == ls[1..];
    var j := Join(ls[1..]);
    assert ([c] + ls[0]) + "\n" + j == [c] + (ls[0] + "\n" + j);
  }

  /** Joining line-break-free lines then splitting gives back the lines. */
  lemma {:induction false} SplitJoin(ls: seq<string>)
    requires |ls| >= 1
    requires forall i :: 0 <= i < |ls| ==> IsLine(ls[i])
    ensures Split(Join(ls)) == ls
    decreases |ls|, |ls[0]|
  {
    if |ls| == 1 {
      SplitLine(ls[0]);
    } else if |ls[0]| == 0 {
      var tail := ls[1..];
      SplitJoin(tail);
      var j := Join(ls);
      assert j == "\n" + Join(tail);
      assert j[0] == '\n' && j[1..] == Join(tail);
      assert Split(j) == [""] + Split(Join(tail));
      assert ls == [ls[0]] + tail;
    } else {
      var c := ls[0][0];
      var first := ls[0][1..];
      assert ls[0] == [c] + first;
      assert c != '\n';
      assert IsLine(first) by { assert forall k :: 0 <= k < |first| ==> first[k] == ls[0][k + 1]; }
      var ls' := [first] + ls[1..];
      assert ls'[1..] == ls[1..];
      assert forall i :: 0 <= i < |ls'| ==> IsLine(ls'[i]);
      SplitJoin(ls');
      var j := Join(ls);
      assert j == [c] + Join(ls');
      assert j[0] == c && j[1..] == Join(ls');
      var rest := Split(Join(ls'));
      assert rest == ls';
      assert Split(j) == [[c] + rest[0]] + rest[1..];
    }
  }

  /** A text without line breaks is a single line. */
  lemma {:induction false} SplitLine(s: string)
    requires IsLine(s)
    ensures Split(s) == [s]
    decreases |s|
  {
    if |s| > 0 {
      assert IsLine(s[1..]) by { assert forall k :: 0 <= k < |s[1..]| ==> s[1..][k] == s[k + 1]; }
      SplitLine(s[1..]);
      assert s == [s[0]] + s[1..];
    }
  }

  /** The widest of the measured widths, starting from 0 as the program's
      `let maxWidth = 0; if (w > maxWidth) maxWidth = w` loop does. */
  function MaxWidth(ws: seq<real>): (r: real)
    ensures r >= 0.0
    ensures forall i :: 0 <= i < |ws| ==> ws[i] <= r
    ensures r == 0.0 || exists i :: 0 <= i < |ws| && ws[i] == r
  {
    if |ws| == 0 then 0.0
    else
      var m := MaxWidth(ws[..|ws| - 1]);
      var w := ws[|ws| - 1];
      if w > m then w else m
  }
}
