/**
 The lookup as the program does it: one character buffer, cut up in place by writing NULs,
 with strtok's position kept between calls.
 */
module ConfigScanner {
  import opened ConfigText

  /** A C string occupies buf[p..e]: no NUL before e, a NUL at e. */
  ghost predicate CString(buf: seq<char>, p: nat, e: nat) {
    p <= e < |buf| && buf[e] == NUL && forall i :: p <= i < e ==> buf[i] != NUL
  }

  // ---- the scanning loops

  /** Moves forward over white space, but not past the terminator. */
  method SkipSpaces(buf: array<char>, p: nat, ghost e: nat) returns (q: nat)
    requires CString(buf[..], p, e)
    ensures p <= q <= e && buf[q..e] == TrimLeft(buf[p..e])
    ensures q < e ==> !IsSpace(buf[q])
  {
    ghost var s := buf[..];
    q := p;
    while buf[q] != NUL && IsSpace(buf[q])
      invariant p <= q <= e && TrimLeft(s[q..e]) == TrimLeft(s[p..e])
      decreases e - q
    {
      assert s[q..e][0] == s[q] && s[q..e][1..] == s[q + 1..e];
      q := q + 1;
    }
    assert q < e ==> s[q..e][0] == s[q];
    assert s[q..e] == buf[q..e] && s[p..e] == buf[p..e];
  }

  /** strchr(p, c); a result equal to e stands for NULL. */
  method StrChr(buf: array<char>, p: nat, c: char, ghost e: nat) returns (q: nat)
    requires CString(buf[..], p, e) && c != NUL
    ensures p <= q <= e && q - p == IndexOf(buf[p..e], c)
  {
    q := p;
    while buf[q] != NUL && buf[q] != c
      invariant p <= q <= e && forall i :: p <= i < q ==> buf[i] != c
      decreases e - q
    {
      q := q + 1;
    }
    IndexOfUnique(buf[p..e], c, q - p);
  }

  /** Moves back over white space from the end, but not before p; the string then ends after `last`. */
  method TrimEnd(buf: array<char>, p: nat, e: nat) returns (last: int)
    requires p <= e <= buf.Length && (p < e ==> !IsSpace(buf[p]))
    ensures p - 1 <= last < e && buf[p..last + 1] == TrimRight(buf[p..e])
  {
    last := e - 1;
    while last > p && IsSpace(buf[last])
      invariant p - 1 <= last < e && (p < e ==> p <= last)
      invariant TrimRight(buf[p..last + 1]) == TrimRight(buf[p..e])
      decreases last
    {
      assert buf[p..last + 1][..last - p] == buf[p..last];
      last := last - 1;
    }
  }

  /** strcmp(key, p) == 0 */
  method StrEqual(buf: array<char>, p: nat, key: string, ghost e: nat) returns (same: bool)
    requires CString(buf[..], p, e) && NUL !in key
    ensures same <==> key == buf[p..e]
  {
    var i := 0;
    while i < |key| && buf[p + i] == key[i]
      invariant 0 <= i <= |key| && p + i <= e && key[..i] == buf[p..p + i]
    {
      i := i + 1;
    }
    same := i == |key| && buf[p + i] == NUL;
    assert i == |key| ==> key[..i] == key;
    assert i < |key| && |key| == e - p ==> key[i] != buf[p..e][i];
  }

  /** strlen(p), and the copy that strdup(p) makes. */
  method StrDup(buf: array<char>, p: nat, ghost e: nat) returns (s: string)
    requires CString(buf[..], p, e)
    ensures s == buf[p..e]
  {
    s := [];
    var i := p;
    while buf[i] != NUL
      invariant p <= i <= e && s == buf[p..i]
      decreases e - i
    {
      s := s + [buf[i]];
      i := i + 1;
    }
  }

  // ---- strtok

  /** From position p on, the buffer still holds the text as it was read. */
  ghost predicate Intact(buf: seq<char>, text: string, p: nat) {
    |text| < |buf| && p <= |text| && NUL !in text && buf[p..|text|] == text[p..] && buf[|text|] == NUL
  }

  /** The line [start, end) follows position p after some newlines, and a newline or the end follows it. */
  ghost predicate LineAt(text: string, p: nat, start: nat, end: nat) {
    p <= start < end <= |text| && OnlyNewlines(text[p..start]) && '\n' !in text[start..end] &&
    (end < |text| ==> text[end] == '\n')
  }

  class Tokenizer {
    const buf: array<char>
    var saved: nat

    constructor (buffer: array<char>)
      ensures buf == buffer && saved == 0
    {
      buf := buffer;
      saved := 0;
    }

    /** strtok(.., "\n"): the next line, NUL-terminated in place; -1 for NULL. */
    method Next(ghost text: string) returns (start: int, ghost end: nat)
      requires Intact(buf[..], text, saved)
      modifies this`saved, buf
      ensures start < 0 ==> OnlyNewlines(text[old(saved)..])
      ensures start >= 0 ==> LineAt(text, old(saved), start, end) && saved == Following(text, end)
      ensures start >= 0 ==> CString(buf[..], start, end) && buf[start..end] == text[start..end]
      ensures start >= 0 ==> Intact(buf[..], text, saved)
    {
      ghost var n, s := |text|, buf[..];
      assert forall i :: saved <= i < n ==> s[i] == text[i] by { SameAt(s, text, saved); }
      var p := saved;
      while buf[p] == '\n'
        invariant saved <= p <= n && forall i :: saved <= i < p ==> text[i] == '\n'
        decreases n - p
      {
        p := p + 1;
      }
      end := n;
      if buf[p] == NUL {
        saved := p;
        return -1, end;
      }
      var q := p;
      while buf[q] != NUL && buf[q] != '\n'
        invariant p <= q <= n && forall i :: p <= i < q ==> text[i] != '\n'
        decreases n - q
      {
        q := q + 1;
      }
      if buf[q] == NUL {
        saved := q;
      } else {
        buf[q] := NUL;
        saved := q + 1;
      }
      start, end := p, q;
    }
  }

  /** Where strtok resumes after a line that ends at `end`. */
  ghost function Following(text: string, end: nat): nat {
    if end < |text| then end + 1 else end
  }

  lemma SameAt(s: seq<char>, text: string, p: nat)
    requires Intact(s, text, p)
    ensures forall i :: p <= i < |text| ==> s[i] == text[i]
  {
    forall i | p <= i < |text| ensures s[i] == text[i] {
      assert s[p..|text|][i - p] == text[p..][i - p];
    }
  }

  // ---- one line

  /** The body of the do loop after strtok: cuts up buf[line..end] and nothing after it. */
  method ParseInPlace(buf: array<char>, line: nat, key: string, ghost end: nat) returns (r: Line)
    requires CString(buf[..], line, end) && NUL !in key
    modifies buf
    ensures r == ParseLine(old(buf[line..end]), key)
    ensures buf[end..] == old(buf[end..])
  {
    var p := SkipSpaces(buf, line, end);
    if buf[p] == NUL || buf[p] == '#' {
      return Skip;
    }
    r := SplitInPlace(buf, p, key, end);
  }

  /** A line that is neither blank nor a comment: split at the first '='. */
  method SplitInPlace(buf: array<char>, p: nat, key: string, ghost end: nat) returns (r: Line)
    requires CString(buf[..], p, end) && NUL !in key && p < end && !IsSpace(buf[p]) && buf[p] != '#'
    modifies buf
    ensures r == ParseTrimmed(old(buf[p..end]), key)
    ensures buf[end..] == old(buf[end..])
  {
    ghost var t := buf[p..end];
    assert t[0] == buf[p];
    var equal := StrChr(buf, p, '=', end);
    if buf[equal] == NUL {
      var s := StrDup(buf, p, end);
      return Bad(s);
    }
    ghost var e := equal - p;
    assert t[..e] == buf[p..equal] && t[e + 1..] == buf[equal + 1..end];
    var same := KeyInPlace(buf, p, equal, key, end);
    if !same {
      return Skip;
    }
    var v := ValueInPlace(buf, equal + 1, end);
    return Hit(v);
  }

  /** Ends the key in place before the blanks that precede '=', and compares it. */
  method KeyInPlace(buf: array<char>, p: nat, equal: nat, key: string, ghost end: nat) returns (same: bool)
    requires CString(buf[..], p, end) && p <= equal < end && NUL !in key && !IsSpace(buf[p])
    modifies buf
    ensures same <==> key == TrimRight(old(buf[p..equal]))
    ensures buf[equal + 1..end] == old(buf[equal + 1..end]) && buf[end..] == old(buf[end..])
    ensures CString(buf[..], equal + 1, end)
  {
    var keyEnd := TrimEnd(buf, p, equal);
    ghost var before := buf[..];
    buf[keyEnd + 1] := NUL;
    assert buf[p..keyEnd + 1] == before[p..keyEnd + 1];
    same := StrEqual(buf, p, key, keyEnd + 1);
  }

  /** Trims the value in place and copies it out. */
  method ValueInPlace(buf: array<char>, p: nat, ghost end: nat) returns (v: string)
    requires CString(buf[..], p, end)
    modifies buf
    ensures v == TrimRight(TrimLeft(old(buf[p..end])))
    ensures buf[end..] == old(buf[end..])
  {
    var start := SkipSpaces(buf, p, end);
    var s := StrDup(buf, start, end);
    var last := TrimEnd(buf, start, start + |s|);
    ghost var before := buf[..];
    buf[last + 1] := NUL;
    assert buf[start..last + 1] == before[start..last + 1] && buf[end..] == before[end..];
    v := StrDup(buf, start, last + 1);
  }

  // ---- the whole lookup

  /** The text a buffer holds: everything before its first NUL. */
  ghost function Text(buf: seq<char>): string {
    buf[..IndexOf(buf, NUL)]
  }

  /**
   GetCfgFn from the first strtok on: for every NUL-terminated buffer the result is the meaning of
   the text in it, so the NULs written along the way never damage a value or a later line.
   */
  method GetCfg(buf: array<char>, key: string) returns (r: Outcome)
    requires buf.Length > 0 && buf[buf.Length - 1] == NUL && NUL !in key
    modifies buf
    ensures r == Lookup(Text(old(buf[..])), key)
  {
    ghost var text := Text(buf[..]);
    TextIntact(buf[..]);
    var tok := new Tokenizer(buf);
    var line, end := tok.Next(text);
    assert text[0..] == text;
    if line < 0 {
      return NullLine;
    }
    assert !OnlyNewlines(text) by { assert text[line] == text[line..end][0]; }
    NextLine(text, 0, line, end, key);
    while true
      invariant tok.buf == buf && line >= 0 && line < end <= |text| && tok.saved == Following(text, end)
      invariant CString(buf[..], line, end) && buf[line..end] == text[line..end] && Intact(buf[..], text, tok.saved)
      invariant Scan(text, key) == AfterLine(text, line, end, key)
      decreases |text| - end
    {
      ghost var before := buf[..];
      var parsed := ParseInPlace(buf, line, key, end);
      StillIntact(before, buf[..], text, end);
      match parsed {
        case Bad(t) => return Malformed(t);
        case Hit(v) => return Value(v);
        case Skip =>
      }
      ghost var from := tok.saved;
      line, end := tok.Next(text);
      if line < 0 {
        ScanOnlyNewlines(text[from..], key);
        return Value("");
      }
      NextLine(text, from, line, end, key);
    }
  }

  lemma TextIntact(buf: seq<char>)
    requires |buf| > 0 && buf[|buf| - 1] == NUL
    ensures Intact(buf, Text(buf), 0)
  {
    IndexOfFirst(buf, NUL);
    assert IndexOf(buf, NUL) < |buf|;
  }

  lemma StillIntact(before: seq<char>, after: seq<char>, text: string, end: nat)
    requires |before| == |after| && end <= |text| && Intact(before, text, Following(text, end))
    requires after[end..] == before[end..]
    ensures Intact(after, text, Following(text, end))
  {
    var p := Following(text, end);
    assert forall i :: end <= i < |before| ==> after[i] == after[end..][i - end] == before[end..][i - end] == before[i];
    assert after[p..|text|] == before[p..|text|];
  }

  /** What the rest of the text yields, given the line at [line, end). */
  ghost function AfterLine(text: string, line: nat, end: nat, key: string): Outcome
    requires line <= end <= |text|
  {
    match ParseLine(text[line..end], key)
    case Bad(t) => Malformed(t)
    case Hit(v) => Value(v)
    case Skip => Scan(text[Following(text, end)..], key)
  }

  lemma {:induction false} ScanOnlyNewlines(text: string, key: string)
    requires OnlyNewlines(text)
    ensures Scan(text, key) == Value("")
  {
    if text == "" {
      ScanLast("", key);
      assert ParseLine("", key) == Skip;
    } else {
      assert text == "\n" + text[1..];
      ScanNewline(text[1..], key);
      ScanOnlyNewlines(text[1..], key);
    }
  }

  /** Skipping newlines and taking the next line is what Scan does. */
  lemma {:induction false} NextLine(text: string, from: nat, line: nat, end: nat, key: string)
    requires LineAt(text, from, line, end)
    ensures Scan(text[from..], key) == AfterLine(text, line, end, key)
    decreases line - from
  {
    if from < line {
      SkipNewline(text, from, line, key);
      NextLine(text, from + 1, line, end, key);
    } else if end < |text| {
      assert text[from..] == text[line..end] + "\n" + text[end + 1..];
      ScanLine(text[line..end], text[end + 1..], key);
    } else {
      assert text[from..] == text[line..end];
      ScanLast(text[line..end], key);
      ScanLast("", key);
      assert text[end..] == "" && ParseLine("", key) == Skip;
    }
  }

  lemma SkipNewline(text: string, from: nat, line: nat, key: string)
    requires from < line <= |text| && OnlyNewlines(text[from..line])
    ensures OnlyNewlines(text[from + 1..line]) && Scan(text[from..], key) == Scan(text[from + 1..], key)
  {
    assert text[from..line][0] == '\n';
    assert text[from..] == "\n" + text[from + 1..];
    ScanNewline(text[from + 1..], key);
    assert text[from + 1..line] == text[from..line][1..];
  }
}
