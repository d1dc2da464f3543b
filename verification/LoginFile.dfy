/** The login-file editor (client/mysql_config_editor.cc): commands edit the raw text of the file in a buffer. */
module LoginFile {
  import opened Text
  import opened LoginText
  import opened LoginEdits
  import opened Memory

  const NUL: char := 0 as char

  // ---------- the buffer ----------

  lemma PrefixMatch(t: string, h: string)
    ensures h <= t <==> First(t, h, 0) == 0
  {
    FirstFacts(t, h, 0);
    assert MatchesAt(t, h, 0) <==> h <= t;
  }

  /** The dynamic string `file_buf`. */
  class Buffer {
    var str: array<char>
    var length: nat

    ghost predicate Valid()
      reads this, str
    {
      length < str.Length && str[length] == NUL && forall i :: 0 <= i < length ==> str[i] != NUL
    }

    ghost function Contents(): string
      requires length <= str.Length
      reads this, str
    {
      str[..length]
    }

    constructor ()
      ensures Valid() && fresh(str) && Contents() == ""
    {
      str := new char[1](_ => NUL);
      length := 0;
    }

    /** `strncmp` at a position. */
    method HasAt(at: nat, p: string) returns (r: bool)
      requires Valid() && at <= length && NUL !in p
      ensures r == MatchesAt(Contents(), p, at)
    {
      var j := 0;
      while j < |p| && str[at + j] == p[j]
        invariant j <= |p| && at + j <= length && forall i :: 0 <= i < j ==> str[at + i] == p[i]
      {
        j := j + 1;
      }
      r := j == |p|;
      if r {
        assert Contents()[at..at + |p|] == p;
      } else if at + |p| <= length {
        assert Contents()[at..at + |p|][j] == str[at + j];
      }
    }

    /** `strstr` from a position. */
    method StrStr(p: string, from: nat) returns (r: int)
      requires Valid() && from <= length && NUL !in p
      ensures r == First(Contents(), p, from)
    {
      hide First;
      r := from;
      while r <= length
        invariant from <= r <= length + 1 && NoMatch(Contents(), p, from, r)
      {
        var found := HasAt(r, p);
        if found {
          FirstIs(Contents(), p, from, r);
          return;
        }
        r := r + 1;
      }
      FirstIsNone(Contents(), p, from);
      r := NONE;
    }

    /** `locate_login_path`. */
    method LocateLoginPath(name: string) returns (r: int)
      requires Valid() && NUL !in name
      ensures r == LocateIn(Contents(), name)
    {
      hide First;
      var path := "\n" + Header(name);
      PrefixMatch(Contents(), Header(name));
      var at := StrStr(Header(name), 0);
      if at == 0 { return 0; }
      r := StrStr(path, 0);
      if r != NONE { r := r + 1; }
    }

    /** Byte by byte, what follows `end` moves down to `start`. */
    method ShiftDown(start: nat, end: nat, toMove: nat)
      requires start <= end && end + toMove <= str.Length
      modifies str
      ensures forall j :: start <= j < start + toMove ==> str[j] == old(str[j + (end - start)])
      ensures forall j :: 0 <= j < start ==> str[j] == old(str[j])
    {
      var i := 0;
      while i < toMove
        invariant i <= toMove
        invariant forall j :: 0 <= j < start || start + i <= j < str.Length ==> str[j] == old(str[j])
        invariant forall j :: start <= j < start + i ==> str[j] == old(str[j + (end - start)])
      {
        str[start + i] := str[end + i];
        i := i + 1;
      }
    }

    method CloseGap(start: nat, end: nat)
      requires Valid() && start <= end <= length
      modifies this`length, str
      ensures Valid() && Contents() == old(Contents()[..start] + Contents()[end..])
    {
      ghost var t := Contents();
      ShiftDown(start, end, length - end);
      str[start + (length - end)] := NUL;
      length := length - (end - start);
      ghost var r := t[..start] + t[end..];
      forall j | 0 <= j < length ensures str[j] == r[j] {
        if j < start { assert r[j] == t[j]; } else { assert r[j] == t[j + (end - start)]; }
      }
      assert Contents() == r;
    }

    /** `remove_login_path`. */
    method RemoveLoginPath(name: string)
      requires Valid() && NUL !in name
      modifies this`length, str
      ensures Valid() && Contents() == RemoveIn(old(Contents()), name)
    {
      hide First, LocateIn;
      var start := LocateLoginPath(name);
      if start == NONE { return; }
      var end := StrStr("\n[", start);
      if end != NONE {
        CloseGap(start, end + 1);
      } else {
        str[start] := NUL;
        length := start;
      }
    }

    ghost predicate EndsLine()
      requires length <= str.Length
      reads this, str
    {
      length > 0 ==> str[length - 1] == '\n'
    }

    /** The search of `remove_option` in [start, start + searchLen). */
    method FindOption(a: nat, e: nat, p: string) returns (found: bool, start: nat)
      requires Valid() && a <= e <= length && p != "" && p[0] == '\n' && NUL !in p
      ensures found ==> a <= start && start + 1 < e && First(Contents(), p, a) == start
      ensures !found ==> First(Contents(), p, a) == NONE || First(Contents(), p, a) + 1 >= e
    {
      hide First;
      ghost var t := Contents();
      start, found := a, false;
      var searchLen := e - a;
      while searchLen > 1
        invariant a <= start <= length && searchLen >= 0 && NoMatch(t, p, a, start)
        invariant if searchLen > 1 then start + searchLen == e else NoMatch(t, p, a, e - 1)
      {
        found := HasAt(start, p);
        if found {
          FirstIs(t, p, a, start);
          return;
        }
        searchLen := searchLen - 1;
        while searchLen > 1
          invariant 1 <= searchLen && start + searchLen == e - 1 && a <= start && NoMatch(t, p, a, start + 1)
        {
          start := start + 1;
          if str[start] == '\n' { break; }
          NotABreak(t, p, start);
          searchLen := searchLen - 1;
        }
      }
      FirstLater(t, p, a, e);
    }

    /** `remove_option`. */
    method RemoveOption(name: string, key: string)
      requires Valid() && EndsLine() && NUL !in name && NUL !in key
      modifies this`length, str
      ensures Valid() && Contents() == RemoveOptionIn(old(Contents()), name, key)
    {
      hide First, LocateIn;
      var start := LocateLoginPath(name);
      if start == NONE { return; }
      var end := StrStr("\n[", start);
      if end == NONE { end := length; }
      var found, at := FindOption(start, end, "\n" + key);
      if found {
        end := at + 1;
        while str[end] != '\n'
          invariant at < end < length && forall j :: at < j < end ==> str[j] != '\n'
          decreases length - end
        {
          end := end + 1;
        }
        LineEndIs(Contents(), at + 1, end);
        CloseGap(at, end);
      }
    }

    /** `dynstr_append`. */
    method Append(s: string)
      requires Valid() && NUL !in s
      modifies this, str
      ensures Valid() && Contents() == old(Contents()) + s
      ensures str == old(str) || fresh(str)
    {
      if length + |s| >= str.Length {
        str := Realloc(str, length, length + |s| + 1);
      }
      ghost var t := Contents();
      assert t == old(Contents());
      forall i | 0 <= i < |s| { str[length + i] := s[i]; }
      str[length + |s|] := NUL;
      length := length + |s|;
      assert Contents() == t + s;
    }
  }

  lemma NotABreak(t: string, p: string, i: nat)
    requires p != "" && p[0] == '\n' && i < |t| && t[i] != '\n'
    ensures !MatchesAt(t, p, i)
  {
    if MatchesAt(t, p, i) { MatchStarts(t, p, i); }
  }

  lemma FirstLater(t: string, p: string, a: nat, e: nat)
    requires a <= |t| && NoMatch(t, p, a, e - 1)
    ensures First(t, p, a) == NONE || First(t, p, a) + 1 >= e
  {
    FirstFacts(t, p, a);
  }
}
