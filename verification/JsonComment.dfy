/**
 Comments, without the functions of the lexer, and the proof that they are read as such and
 skipped.
 */
module JsonComment {
  import opened JsonToken

  predicate StarSlash(doc: string, k: nat) {
    k + 1 < |doc| && doc[k] == '*' && doc[k+1] == '/'
  }

  /** A comment that ends with the first star and slash behind its beginning. */
  ghost predicate BlockComment(doc: string, start: nat, end: nat) {
    && start + 4 <= end <= |doc| && doc[start] == '/' && doc[start+1] == '*' && StarSlash(doc, end - 2)
    && forall k :: start + 2 <= k < end - 2 ==> !StarSlash(doc, k)
  }

  predicate LineEnd(c: char) {
    c == '\n' || c == '\r'
  }

  /** From `pos` on the line goes up to `stop`, and the next one begins at `end`. */
  ghost predicate EndsLine(doc: string, pos: nat, stop: int, end: nat) {
    && pos <= stop <= |doc| && (forall k :: pos <= k < stop ==> !LineEnd(doc[k]))
    && if stop == |doc| then end == stop
       else LineEnd(doc[stop]) && end == if doc[stop] == '\r' && stop + 1 < |doc| && doc[stop+1] == '\n' then stop + 2 else stop + 1
  }

  /** A comment that ends with its line, or with the document; carriage return and line feed together are one line end. */
  ghost predicate LineComment(doc: string, start: nat, end: nat) {
    && start + 2 <= end <= |doc| && doc[start] == '/' && doc[start+1] == '/'
    && var pos := start + 2; exists stop :: EndsLine(doc, pos, stop, end)
  }

  lemma {:induction false} FindsEnd(doc: string, pos: nat, end: nat)
    requires pos <= end && StarSlash(doc, end) && forall k :: pos <= k < end ==> !StarSlash(doc, k)
    ensures BlockCommentEnd(doc, pos) == end + 1
    decreases end - pos
  {
    if pos < end {
      assert !StarSlash(doc, pos);
      FindsEnd(doc, pos + 1, end);
    }
  }

  lemma {:induction false} FindsLineEnd(doc: string, pos: nat, stop: nat, end: nat)
    requires EndsLine(doc, pos, stop, end)
    ensures LineCommentEnd(doc, pos) == end
    decreases stop - pos
  {
    if pos < stop {
      assert !LineEnd(doc[pos]);
      FindsLineEnd(doc, pos + 1, stop, end);
    }
  }

  /** Both kinds are read as one token. */
  lemma ScanComment(doc: string, start: nat, end: nat)
    requires BlockComment(doc, start, end) || LineComment(doc, start, end)
    ensures Scan(doc, start) == Token(Comment, start, end)
  {
    if BlockComment(doc, start, end) {
      FindsEnd(doc, start + 2, end - 2);
    } else {
      var stop :| EndsLine(doc, start + 2, stop, end);
      FindsLineEnd(doc, start + 2, stop, end);
    }
    hide EndsLine, BlockCommentEnd, LineCommentEnd;
  }

  lemma {:induction false} FindsNoEnd(doc: string, pos: nat)
    requires pos < |doc| && forall k :: pos <= k ==> !StarSlash(doc, k)
    ensures BlockCommentEnd(doc, pos) == |doc| - 1
    decreases |doc| - pos
  {
    assert !StarSlash(doc, pos);
    if pos + 1 < |doc| {
      FindsNoEnd(doc, pos + 1);
    }
  }

  /** A comment that is not closed is an error, unless the document happens to end with a slash behind its beginning. */
  lemma OpenComment(doc: string, start: nat)
    requires start + 2 <= |doc| && doc[start] == '/' && doc[start+1] == '*'
    requires forall k :: start + 2 <= k ==> !StarSlash(doc, k)
    ensures Scan(doc, start) == Token(if |doc| > start + 2 && doc[|doc|-1] == '/' then Comment else ErrorToken, start, |doc|)
  {
    if start + 2 < |doc| {
      FindsNoEnd(doc, start + 2);
    }
  }

  /** A comment in front of a token is skipped, with the white space around it. */
  lemma CommentSkipped(doc: string, pos: nat, end: nat)
    requires pos <= |doc| && (BlockComment(doc, SkipSpaces(doc, pos), end) || LineComment(doc, SkipSpaces(doc, pos), end))
    ensures NextToken(doc, pos) == NextToken(doc, end)
  {
    ScanComment(doc, SkipSpaces(doc, pos), end);
    hide Scan, BlockComment, LineComment;
  }
}
