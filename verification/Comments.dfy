/** Blanking Solidity comments without moving anything: the declaration line is then looked up by offset. */
module Comments {
  import opened Wrappers

  /** The end of a line comment whose text starts at `i`. */
  function LineEnd(t: string, i: nat): (e: nat)
    requires i <= |t|
    ensures i <= e <= |t|
    decreases |t| - i
  {
    if i == |t| || t[i] == '\n' then i else LineEnd(t, i + 1)
  }

  /** The end of the nearest closing mark at or after `i`. */
  function BlockEnd(t: string, i: nat): (e: Option<nat>)
    requires i <= |t|
    ensures e.Some? ==> i + 2 <= e.value <= |t|
    decreases |t| - i
  {
    if i + 2 > |t| then None
    else if t[i] == '*' && t[i + 1] == '/' then Some(i + 2)
    else BlockEnd(t, i + 1)
  }

  /** Where a comment starting at `i` ends: the first alternative of the pattern that matches there. */
  function CommentAt(t: string, i: nat): (e: Option<nat>)
    requires i <= |t|
    ensures e.Some? ==> i + 2 <= e.value <= |t|
  {
    if i + 2 > |t| || t[i] != '/' then None
    else if t[i + 1] == '/' then Some(LineEnd(t, i + 2))
    else if t[i + 1] == '*' then BlockEnd(t, i + 2)
    else None
  }

  function Masked(s: string): (m: string)
    ensures |m| == |s|
    ensures forall k :: 0 <= k < |s| ==> m[k] == if s[k] == '\n' then '\n' else ' '
  {
    if s == "" then "" else [if s[0] == '\n' then '\n' else ' '] + Masked(s[1..])
  }

  /** Substitution of every match, left to right, from `i` on. */
  function BlankFrom(t: string, i: nat): string
    requires i <= |t|
    decreases |t| - i
  {
    if i == |t| then ""
    else
      match CommentAt(t, i)
      case Some(e) => Masked(t[i..e]) + BlankFrom(t, e)
      case None => [t[i]] + BlankFrom(t, i + 1)
  }

  /** _strip_solidity_comments */
  function Blank(t: string): string {
    BlankFrom(t, 0)
  }

  /** The leftmost non-overlapping comments from `i` on cover position `k`. */
  predicate Covered(t: string, i: nat, k: nat)
    requires i <= |t|
    decreases |t| - i
  {
    if i == |t| then false
    else
      match CommentAt(t, i)
      case Some(e) => i <= k < e || Covered(t, e, k)
      case None => Covered(t, i + 1, k)
  }

  lemma {:induction false} CoveredAhead(t: string, i: nat, k: nat)
    requires k < i <= |t|
    ensures !Covered(t, i, k)
    decreases |t| - i
  {
    if i < |t| {
      match CommentAt(t, i)
      case Some(e) => CoveredAhead(t, e, k);
      case None => CoveredAhead(t, i + 1, k);
    }
  }

  lemma {:induction false} BlankFromAt(t: string, i: nat, k: nat)
    requires i <= |t|
    ensures |BlankFrom(t, i)| == |t| - i
    ensures i <= k < |t| ==> BlankFrom(t, i)[k - i] == if Covered(t, i, k) && t[k] != '\n' then ' ' else t[k]
    decreases |t| - i
  {
    hide CommentAt, Masked;
    if i < |t| {
      match CommentAt(t, i)
      case Some(e) =>
        BlankFromAt(t, e, k);
        CommentThenRest(t, i, e, k);
      case None =>
        BlankFromAt(t, i + 1, k);
        CoveredAhead(t, i + 1, i);
    }
  }

  lemma CommentThenRest(t: string, i: nat, e: nat, k: nat)
    requires i < |t| && CommentAt(t, i) == Some(e) && |BlankFrom(t, e)| == |t| - e
    ensures |BlankFrom(t, i)| == |t| - i
    ensures i <= k < e ==> BlankFrom(t, i)[k - i] == if t[k] == '\n' then '\n' else ' '
    ensures e <= k < |t| ==> BlankFrom(t, i)[k - i] == BlankFrom(t, e)[k - e]
    ensures i <= k < |t| ==> (Covered(t, i, k) <==> k < e || Covered(t, e, k))
  {
    hide CommentAt, Masked;
    var head, tail := Masked(t[i..e]), BlankFrom(t, e);
    assert BlankFrom(t, i) == head + tail && |head| == e - i;
    if i <= k < e {
      assert t[i..e][k - i] == t[k] && head[k - i] == (head + tail)[k - i];
    }
  }

  /** Length and every newline stay; exactly the other characters of leftmost comments become spaces. */
  lemma BlankAt(t: string, k: nat)
    ensures |Blank(t)| == |t|
    ensures k < |t| ==> Blank(t)[k] == if Covered(t, 0, k) && t[k] != '\n' then ' ' else t[k]
    ensures k < |t| ==> (Blank(t)[k] == '\n' <==> t[k] == '\n')
  {
    BlankFromAt(t, 0, k);
  }

  /** What lies outside every comment starts none. */
  lemma {:induction false} UncoveredStartsNone(t: string, i: nat, k: nat)
    requires i <= k < |t| && !Covered(t, i, k)
    ensures CommentAt(t, k).None?
    decreases |t| - i
  {
    match CommentAt(t, i)
    case Some(e) => UncoveredStartsNone(t, e, k);
    case None =>
      if i < k {
        UncoveredStartsNone(t, i + 1, k);
      }
  }

  lemma {:induction false} BlockEndFinds(t: string, i: nat)
    requires i <= |t|
    ensures BlockEnd(t, i).None? ==> forall j :: i <= j && j + 2 <= |t| ==> !(t[j] == '*' && t[j + 1] == '/')
    ensures BlockEnd(t, i).Some? ==> t[BlockEnd(t, i).value - 2] == '*' && t[BlockEnd(t, i).value - 1] == '/'
    decreases |t| - i
  {
    if i + 2 <= |t| && !(t[i] == '*' && t[i + 1] == '/') {
      BlockEndFinds(t, i + 1);
    }
  }

  /** The blanked text contains no comment; an unterminated opening may be left, and still opens none. */
  lemma NoCommentRemains(t: string, i: nat)
    requires i <= |t|
    ensures |Blank(t)| == |t| && CommentAt(Blank(t), i).None?
  {
    var b := Blank(t);
    BlankAt(t, i);
    if i + 2 <= |t| && b[i] == '/' && (b[i + 1] == '/' || b[i + 1] == '*') {
      BlankAt(t, i + 1);
      UncoveredStartsNone(t, 0, i);
      BlockEndFinds(t, i + 2);
      BlockEndFinds(b, i + 2);
      if BlockEnd(b, i + 2).Some? {
        var j := BlockEnd(b, i + 2).value - 2;
        BlankAt(t, j);
        BlankAt(t, j + 1);
      }
    }
  }

  lemma {:induction false} NothingToBlank(t: string, i: nat)
    requires i <= |t| && forall k :: i <= k <= |t| ==> CommentAt(t, k).None?
    ensures BlankFrom(t, i) == t[i..]
    decreases |t| - i
  {
    if i < |t| {
      assert CommentAt(t, i).None?;
      NothingToBlank(t, i + 1);
    }
  }

  lemma BlankingIsIdempotent(t: string)
    ensures Blank(Blank(t)) == Blank(t)
  {
    var b := Blank(t);
    BlankAt(t, 0);
    forall k | 0 <= k <= |b| ensures CommentAt(b, k).None? {
      NoCommentRemains(t, k);
    }
    NothingToBlank(b, 0);
  }

  /** text.count("\\n", 0, offset) + 1 */
  function LineOf(t: string, offset: nat): nat
    requires offset <= |t|
  {
    if offset == 0 then 1 else LineOf(t, offset - 1) + (if t[offset - 1] == '\n' then 1 else 0)
  }

  /** An offset found in the blanked text lies on the same line of the original text. */
  lemma {:induction false} SameLine(t: string, offset: nat)
    requires offset <= |t|
    ensures |Blank(t)| == |t| && LineOf(Blank(t), offset) == LineOf(t, offset)
    decreases offset
  {
    BlankAt(t, 0);
    if offset > 0 {
      SameLine(t, offset - 1);
      BlankAt(t, offset - 1);
    }
  }

  // ---------------------------------------------------------------- what a comment and a line are

  /** Two slashes up to the next newline or the end, or slash and star up to the nearest star and slash. */
  ghost predicate IsComment(t: string, i: nat, e: nat) {
    && i + 2 <= e <= |t| && t[i] == '/'
    && if t[i + 1] == '/' then (e == |t| || t[e] == '\n') && forall k :: i + 2 <= k < e ==> t[k] != '\n'
       else
         && t[i + 1] == '*' && i + 4 <= e && Closes(t, e - 2)
         && forall k :: i + 2 <= k < e - 2 ==> !Closes(t, k)
  }

  predicate Closes(t: string, k: nat) {
    k + 2 <= |t| && t[k] == '*' && t[k + 1] == '/'
  }

  lemma CommentAtExactly(t: string, i: nat, e: nat)
    requires i <= |t|
    ensures CommentAt(t, i) == Some(e) <==> IsComment(t, i, e)
  {
    if i + 2 <= |t| && t[i] == '/' {
      if t[i + 1] == '/' {
        LineEndExactly(t, i + 2, e);
      } else if t[i + 1] == '*' {
        BlockEndExactly(t, i + 2, e);
      }
    }
  }

  lemma {:induction false} LineEndExactly(t: string, i: nat, e: nat)
    requires i <= |t|
    ensures LineEnd(t, i) == e <==> i <= e <= |t| && (e == |t| || t[e] == '\n') && forall k :: i <= k < e ==> t[k] != '\n'
    decreases |t| - i
  {
    if i < |t| && t[i] != '\n' {
      LineEndExactly(t, i + 1, e);
    }
  }

  lemma {:induction false} BlockEndExactly(t: string, i: nat, e: nat)
    requires i <= |t|
    ensures BlockEnd(t, i) == Some(e) <==> i + 2 <= e && Closes(t, e - 2) && forall k :: i <= k < e - 2 ==> !Closes(t, k)
    decreases |t| - i
  {
    if i + 2 <= |t| && !Closes(t, i) {
      BlockEndExactly(t, i + 1, e);
    }
  }

  ghost function NewlinesBefore(t: string, offset: nat): set<nat>
    requires offset <= |t|
  {
    set k: nat | k < offset && t[k] == '\n'
  }

  /** The line of an offset is one more than the newlines before it. */
  lemma {:induction false} LineCountsNewlines(t: string, offset: nat)
    requires offset <= |t|
    ensures LineOf(t, offset) == 1 + |NewlinesBefore(t, offset)|
    decreases offset
  {
    if offset > 0 {
      LineCountsNewlines(t, offset - 1);
      if t[offset - 1] == '\n' {
        assert NewlinesBefore(t, offset) == NewlinesBefore(t, offset - 1) + {offset - 1};
      } else {
        assert NewlinesBefore(t, offset) == NewlinesBefore(t, offset - 1);
      }
    } else {
      assert NewlinesBefore(t, 0) == {};
    }
  }
}
