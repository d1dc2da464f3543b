/** Quoting of user-given terminator strings (`field_escape` in client/mysqldump.c and client/mysqlimport.c):
    the user's own escape sequences are kept, bare quotes are doubled, a lone last backslash is doubled. */
module FieldEscape {
  import opened Text

  // ---------- reading a literal ----------

  /** A character of a string literal: as it stands, or behind a backslash. */
  datatype Item = Plain(c: char) | Escaped(c: char)

  /** The lexer of string literals, behind the opening quote: a backslash takes the next character with it, a
      doubled quote stands for a quote, any other quote ends the literal. */
  ghost function Lex(s: string): Option<(seq<Item>, string)> {
    if s == "" then None
    else if s[0] == '\\' then if |s| < 2 then None else Prepend(Escaped(s[1]), Lex(s[2..]))
    else if s[0] != '\'' then Prepend(Plain(s[0]), Lex(s[1..]))
    else if |s| > 1 && s[1] == '\'' then Prepend(Plain('\''), Lex(s[2..]))
    else Some(([], s[1..]))
  }

  ghost function Prepend(x: Item, r: Option<(seq<Item>, string)>): Option<(seq<Item>, string)> {
    match r case None => None case Some(p) => Some(([x] + p.0, p.1))
  }

  /** What the user meant: backslash pairs are escapes, a lone last backslash is a backslash, quotes are quotes. */
  ghost function Meaning(from: string): seq<Item> {
    if from == "" then []
    else if from[0] != '\\' then [Plain(from[0])] + Meaning(from[1..])
    else if |from| == 1 then [Escaped('\\')]
    else [Escaped(from[1])] + Meaning(from[2..])
  }

  // ---------- writing it ----------

  ghost function Body(from: string, odd: bool): string {
    if from == "" then if odd then "\\" else ""
    else if from[0] == '\\' then ['\\'] + Body(from[1..], !odd)
    else if from[0] == '\'' && !odd then "''" + Body(from[1..], false)
    else [from[0]] + Body(from[1..], false)
  }

  lemma {:induction false} BodyLength(from: string, odd: bool)
    ensures |from| <= |Body(from, odd)| <= 2 * |from| + if odd then 1 else 0
    decreases |from|
  {
    if from != "" { BodyLength(from[1..], if from[0] == '\\' then !odd else false); }
  }

  /** The version of mysqldump appends to a dynamic string. */
  method EscapeAppending(dst: string, from: string) returns (r: string)
    ensures r == dst + "'" + Body(from, false) + "'"
  {
    var endBackslashes := false;
    r := dst + "'";
    var i := 0;
    while i < |from|
      invariant i <= |from| && r + Body(from[i..], endBackslashes) == dst + "'" + Body(from, false)
    {
      ghost var before, odd := r, endBackslashes;
      r := r + [from[i]];
      if from[i] == '\\' {
        endBackslashes := !endBackslashes;
      } else {
        if from[i] == '\'' && !endBackslashes { r := r + "'"; }
        endBackslashes := false;
      }
      BodyStep(before, from, i, odd);
      i := i + 1;
    }
    if endBackslashes { r := r + "\\"; }
    r := r + "'";
  }

  /** One character of the loops. */
  lemma BodyStep(r: string, from: string, i: nat, odd: bool)
    requires i < |from|
    ensures var c := from[i];
            var t := if c == '\'' && !odd then r + [c] + "'" else r + [c];
            r + Body(from[i..], odd) == t + Body(from[i + 1..], if c == '\\' then !odd else false)
  {
    assert from[i..][1..] == from[i + 1..];
    var rest := Body(from[i + 1..], if from[i] == '\\' then !odd else false);
    assert r + ("''" + rest) == r + ['\''] + "'" + rest;
    assert r + ([from[i]] + rest) == r + [from[i]] + rest;
  }

  /** The version of mysqlimport writes into a buffer and returns the end of what it wrote. */
  method EscapeInto(to: array<char>, at: nat, from: string) returns (end: nat)
    requires at + 2 * |from| <= to.Length
    modifies to
    ensures end == at + |Body(from, false)| <= to.Length && to[at..end] == Body(from, false)
    ensures forall j :: 0 <= j < at || end <= j < to.Length ==> to[j] == old(to[j])
  {
    hide Body;
    BodyLength(from, false);
    var endBackslashes := false;
    end := at;
    ghost var written := "";
    var i := 0;
    assert from[0..] == from;
    while i < |from|
      invariant i <= |from| && written + Body(from[i..], endBackslashes) == Body(from, false)
      invariant at <= end == at + |written| <= to.Length && to[at..end] == written
      invariant forall j :: 0 <= j < at || end <= j < to.Length ==> to[j] == old(to[j])
    {
      ghost var odd, wrote := endBackslashes, written;
      BodyStep(wrote, from, i, odd);
      BodyLength(from[i + 1..], if from[i] == '\\' then !odd else false);
      written := Put(to, at, end, from[i], written);
      end := end + 1;
      if from[i] == '\\' {
        endBackslashes := !endBackslashes;
      } else {
        if from[i] == '\'' && !endBackslashes {
          written := Put(to, at, end, from[i], written);
          end := end + 1;
        }
        endBackslashes := false;
      }
      i := i + 1;
    }
    BodyEnd(endBackslashes);
    assert from[i..] == "";
    if endBackslashes {
      written := Put(to, at, end, '\\', written);
      end := end + 1;
    }
  }

  lemma BodyEnd(odd: bool)
    ensures Body("", odd) == if odd then "\\" else ""
  {
  }

  /** One more character behind what is written. */
  method Put(to: array<char>, at: nat, end: nat, c: char, ghost written: string) returns (ghost r: string)
    requires at <= end < to.Length && to[at..end] == written
    modifies to
    ensures r == written + [c] && to[at..end + 1] == r
    ensures forall j :: 0 <= j < to.Length && j != end ==> to[j] == old(to[j])
  {
    to[end] := c;
    r := written + [c];
  }

  // ---------- the promise ----------

  lemma PairInBody(from: string)
    requires |from| >= 2 && from[0] == '\\'
    ensures Body(from, false) == [from[0], from[1]] + Body(from[2..], false)
  {
    var x := from[1..];
    assert Body(from, false) == ['\\'] + Body(x, true);
    assert x[1..] == from[2..] && Body(x, true) == [x[0]] + Body(x[1..], false);
  }

  /** The quoted text is one literal that ends at the last quote and means what the user meant. */
  lemma {:induction false} LiteralIsRead(from: string, rest: string)
    requires rest == "" || rest[0] != '\''
    ensures Lex(Body(from, false) + "'" + rest) == Some((Meaning(from), rest))
    decreases |from|
  {
    var s := Body(from, false) + "'" + rest;
    if from == "" {
      assert s == "'" + rest;
      assert s[1..] == rest;
    } else if from[0] != '\\' {
      LiteralIsRead(from[1..], rest);
      var tail := Body(from[1..], false) + "'" + rest;
      assert s == (if from[0] == '\'' then "''" else [from[0]]) + tail;
    } else if |from| == 1 {
      assert from[1..] == "" && s == "\\\\'" + rest;
      assert s[2..] == "'" + rest;
      assert Lex(s[2..]) == Some(([], rest)) by { assert ("'" + rest)[1..] == rest; }
      assert [Escaped('\\')] + [] == Meaning(from);
    } else {
      PairInBody(from);
      LiteralIsRead(from[2..], rest);
      var tail := Body(from[2..], false) + "'" + rest;
      assert s == [from[0], from[1]] + tail;
      assert s[2..] == tail;
    }
  }
}
