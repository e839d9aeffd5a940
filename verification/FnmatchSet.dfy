// curl-8.13.0/lib/curl_fnmatch.c: bracket expressions of the built-in glob matcher.

module FnmatchSet {
  import opened Common
  import opened StrParse

  // Reading a string at i: it may be the NUL, but nothing behind it.
  function At(s: cstring, i: nat): (c: byte)
    requires i <= |s|
    ensures c == 0 <==> i == |s|
  {
    if i < |s| then s[i] else 0
  }

  // ---- character classes (curl_ctype.h) ----

  predicate IsLower(c: byte) { 97 <= c <= 122 }

  predicate IsUpper(c: byte) { 65 <= c <= 90 }

  predicate IsAlpha(c: byte) { IsLower(c) || IsUpper(c) }

  predicate IsAlnum(c: byte) { IsDigit(c) || IsAlpha(c) }

  predicate IsXdigit(c: byte) { IsDigit(c) || 97 <= c <= 102 || 65 <= c <= 70 }

  predicate IsBlank(c: byte) { c == 32 || c == 9 }

  predicate IsPrint(c: byte) { 9 <= c <= 13 || 32 <= c <= 126 }

  predicate IsGraph(c: byte) { 9 <= c <= 13 || 32 < c <= 126 }

  datatype CharClass = Other | Digit | Upper | Lower

  // charclass
  function ClassOf(c: byte): CharClass {
    if IsUpper(c) then Upper else if IsLower(c) then Lower else if IsDigit(c) then Digit else Other
  }

  // ---- sets ----

  // The slots of the charset array behind those of the characters.
  const NEGATE: nat := 256
  const ALNUM: nat := 257
  const DIGIT: nat := 258
  const XDIGIT: nat := 259
  const ALPHA: nat := 260
  const PRINT: nat := 261
  const BLANK: nat := 262
  const LOWER: nat := 263
  const GRAPH: nat := 264
  const SPACE: nat := 265
  const UPPER: nat := 266
  const SIZE: nat := 271

  // The slots that are not zero.
  ghost predicate Encodes(charset: seq<byte>, marks: set<nat>) {
    |charset| == SIZE && forall i :: 0 <= i < SIZE ==> (charset[i] != 0 <==> i in marks)
  }

  // The test of the loop function: a character listed is in; otherwise only the first class found is
  // asked.
  predicate Accepts(marks: set<nat>, c: byte) {
    var found :=
      if c as nat in marks then true
      else if ALNUM in marks then IsAlnum(c)
      else if ALPHA in marks then IsAlpha(c)
      else if DIGIT in marks then IsDigit(c)
      else if XDIGIT in marks then IsXdigit(c)
      else if PRINT in marks then IsPrint(c)
      else if SPACE in marks then IsBlank(c)
      else if UPPER in marks then IsUpper(c)
      else if LOWER in marks then IsLower(c)
      else if BLANK in marks then IsBlank(c)
      else if GRAPH in marks then IsGraph(c)
      else false;
    found != (NEGATE in marks)
  }

  // The slot of a class name.
  function Lookup(word: seq<byte>): (r: Option<nat>)
    ensures r.Some? ==> ALNUM <= r.value <= UPPER && |word| <= 6
  {
    if word == [100, 105, 103, 105, 116] then Some(DIGIT)             // digit
    else if word == [97, 108, 110, 117, 109] then Some(ALNUM)         // alnum
    else if word == [97, 108, 112, 104, 97] then Some(ALPHA)          // alpha
    else if word == [120, 100, 105, 103, 105, 116] then Some(XDIGIT)  // xdigit
    else if word == [112, 114, 105, 110, 116] then Some(PRINT)        // print
    else if word == [103, 114, 97, 112, 104] then Some(GRAPH)         // graph
    else if word == [115, 112, 97, 99, 101] then Some(SPACE)          // space
    else if word == [98, 108, 97, 110, 107] then Some(BLANK)          // blank
    else if word == [117, 112, 112, 101, 114] then Some(UPPER)        // upper
    else if word == [108, 111, 119, 101, 114] then Some(LOWER)        // lower
    else None
  }

  // How many lower-case letters there are from i on.
  function LowerRun(p: cstring, i: nat): (n: nat)
    requires i <= |p|
    ensures i + n <= |p| && !IsLower(At(p, i + n))
    ensures forall k :: i <= k < i + n ==> IsLower(p[k])
    decreases |p| - i
  {
    if IsLower(At(p, i)) then 1 + LowerRun(p, i + 1) else 0
  }

  // A class name and ":]" at p[i..]: the slot of the class, and the place behind.
  function KeywordAt(p: cstring, i: nat): (r: Option<(nat, nat)>)
    requires i <= |p|
    ensures r.Some? ==> ALNUM <= r.value.0 <= UPPER && i < r.value.1 <= |p|
  {
    var n := LowerRun(p, i);
    if At(p, i + n) == 58 && At(p, i + n + 1) == 93 then
      match Lookup(p[i..i + n])
      case Some(slot) => Some((slot, i + n + 2))
      case None => None
    else None
  }

  predicate AllLower(w: seq<byte>) {
    forall k :: 0 <= k < |w| ==> IsLower(w[k])
  }

  lemma {:induction false} LowerRunIs(p: cstring, i: nat, n: nat)
    requires i + n <= |p| && AllLower(p[i..i + n])
    ensures LowerRun(p, i) >= n
    ensures !IsLower(At(p, i + n)) ==> LowerRun(p, i) == n
    decreases n
  {
    if n > 0 {
      var rest := p[i + 1..i + 1 + (n - 1)];
      assert p[i..i + n] == [p[i]] + rest && p[i..i + n][0] == p[i];
      assert forall k :: 0 <= k < n - 1 ==> rest[k] == p[i..i + n][k + 1];
      LowerRunIs(p, i + 1, n - 1);
    }
  }

  // The scanning loop of parsekeyword: the letters found, if ":]" follows them in time.
  method ScanKeyword(p: cstring, start: nat) returns (r: Option<seq<byte>>)
    requires start <= |p|
    ensures var n := LowerRun(p, start);
      if At(p, start + n) == 58 && At(p, start + n + 1) == 93 && n <= 8 then r == Some(p[start..start + n])
      else r == None
  {
    var keyword := new byte[10](_ => 0);
    var ddot, found, i, n: nat := false, false, 0, 0;
    var q := start;
    while !found
      invariant i <= 10 && q == start + i <= |p| && n <= 10
      invariant start + n <= |p| && keyword[..n] == p[start..start + n] && AllLower(p[start..start + n])
      invariant if found then i == n + 2 else if ddot then i == n + 1 else i == n
      invariant ddot ==> At(p, start + n) == 58
      invariant found ==> ddot && At(p, start + n + 1) == 93
      decreases 10 - i, !found
    {
      var c := At(p, q);
      LowerRunIs(p, start, n);
      if i >= 10 {
        return None;
      }
      if !ddot {
        if IsLower(c) {
          keyword[i] := c;
          assert keyword[..n + 1] == keyword[..n] + [c] && p[start..start + n + 1] == p[start..start + n] + [c];
          n := n + 1;
        } else if c == 58 {
          ddot := true;
        } else {
          return None;
        }
      } else {
        if c == 93 {
          found := true;
        } else {
          return None;
        }
      }
      q := q + 1;
      i := i + 1;
    }
    LowerRunIs(p, start, n);
    return Some(keyword[..n]);
  }

  // parsekeyword. On failure the caller ignores where the scan stopped.
  method ParseKeyword(p: cstring, start: nat, charset: array<byte>, ghost marks: set<nat>)
    returns (ok: bool, next: nat, ghost marks': set<nat>)
    requires start <= |p| && Encodes(charset[..], marks)
    modifies charset
    ensures Encodes(charset[..], marks')
    ensures match KeywordAt(p, start)
            case Some((slot, end)) => ok && next == end && marks' == marks + {slot}
            case None => !ok && marks' == marks
  {
    var keyword := ScanKeyword(p, start);
    if keyword == None {
      return false, start, marks;
    }
    next := start + |keyword.value| + 2;
    var slot := Lookup(keyword.value);
    if slot == None {
      return false, next, marks;
    }
    charset[slot.value] := 1;
    return true, next, marks + {slot.value};
  }

  predicate InClass(x: nat, cc: CharClass) {
    x < 256 && ClassOf(x as byte) == cc
  }

  // The characters of the class of c from c up to e.
  function Span(c: byte, e: byte): set<nat> {
    set x: nat | c as nat <= x <= e as nat && InClass(x, ClassOf(c))
  }

  // One character or range at p[i]: its characters, and the place behind it.
  function RangeAt(p: cstring, i: nat): (r: (set<nat>, nat))
    requires i < |p|
    ensures i < r.1 <= |p|
  {
    var c := p[i];
    if IsAlnum(c) && At(p, i + 1) == 45 then
      var escaped := At(p, i + 2) == 92;
      var e := if escaped then At(p, i + 3) else At(p, i + 2);
      if e >= c && ClassOf(e) == ClassOf(c) then (Span(c, e), if escaped then i + 4 else i + 3)
      else ({c as nat}, i + 1)
    else ({c as nat}, i + 1)
  }

  // setcharorrange
  method SetCharOrRange(p: cstring, i: nat, charset: array<byte>, ghost marks: set<nat>) returns (next: nat)
    requires i < |p| && Encodes(charset[..], marks)
    modifies charset
    ensures next == RangeAt(p, i).1 && Encodes(charset[..], marks + RangeAt(p, i).0)
  {
    next := i + 1;
    var q := i;
    var c := At(p, q);
    q := q + 1;
    charset[c] := 1;
    if IsAlnum(c) {
      var dash := At(p, q);
      q := q + 1;
      if dash == 45 {
        var cc := ClassOf(c);
        var endrange := At(p, q);
        q := q + 1;
        if endrange == 92 {
          endrange := At(p, q);
          q := q + 1;
        }
        if endrange >= c && ClassOf(endrange) == cc {
          ghost var first := c;
          while c != endrange
            invariant first <= c <= endrange
            invariant Encodes(charset[..], marks + Span(first, c))
          {
            c := c + 1;
            if ClassOf(c) == cc {
              charset[c] := 1;
            }
          }
          next := q;
        }
      }
    }
  }

  datatype SetState = Default | RightBr | RightBrLeftBr

  // Reading a set from p[i] on: what it marks, and where its closing bracket is.
  function ParseSet(p: cstring, i: nat, st: SetState, found: bool, marks: set<nat>): (r: Option<(set<nat>, nat)>)
    requires i <= |p|
    ensures r.Some? ==> i <= r.value.1 < |p| && p[r.value.1] == 93 && marks <= r.value.0
    decreases |p| - i
  {
    var c := At(p, i);
    if c == 0 then None
    else
      match st
      case Default =>
        if c == 93 then
          if found then Some((marks, i)) else ParseSet(p, i + 1, RightBr, true, marks + {93})
        else if c == 91 then
          match if At(p, i + 1) == 58 then KeywordAt(p, i + 2) else None
          case Some((slot, end)) => ParseSet(p, end, Default, true, marks + {slot})
          case None => ParseSet(p, i + 1, Default, true, marks + {91})
        else if c == 94 || c == 33 then
          if !found && NEGATE !in marks then ParseSet(p, i + 1, Default, false, marks + {NEGATE})
          else ParseSet(p, i + 1, Default, true, marks + {c as nat})
        else if c == 92 && i + 1 == |p| then
          ParseSet(p, i + 1, Default, true, marks + {92})
        else
          var (chars, next) := RangeAt(p, if c == 92 then i + 1 else i);
          ParseSet(p, next, Default, true, marks + chars)
      case RightBr =>
        if c == 91 then ParseSet(p, i + 1, RightBrLeftBr, found, marks + {91})
        else if c == 93 then Some((marks, i))
        else if IsPrint(c) then ParseSet(p, i + 1, Default, found, marks + {c as nat})
        else None
      case RightBrLeftBr =>
        if c == 93 then Some((marks, i))
        else ParseSet(p, i + 1, Default, found, marks + {c as nat})
  }

  function SetAt(p: cstring, i: nat): Option<(set<nat>, nat)>
    requires i <= |p|
  {
    ParseSet(p, i, Default, false, {})
  }

  // What setcharset does with the character at p[i] in its default state.
  method DefaultStep(p: cstring, i: nat, found: bool, charset: array<byte>, ghost marks: set<nat>)
    returns (done: bool, end: nat, st: SetState, found': bool, ghost marks': set<nat>)
    requires i < |p| && Encodes(charset[..], marks)
    modifies charset
    ensures i <= end <= |p| && Encodes(charset[..], marks')
    ensures !done ==> i < end
    ensures ParseSet(p, i, Default, found, marks) ==
            if done then Some((marks', end)) else ParseSet(p, end, st, found', marks')
    ensures done ==> end == i && p[i] == 93
  {
    var c := At(p, i);
    done, end, st, found', marks' := false, i, Default, true, marks;
    if c == 93 {
      if found {
        return true, i, Default, found, marks;
      }
      st := RightBr;
    } else if c == 91 {
      if At(p, i + 1) == 58 {
        var ok, next;
        ok, next, marks' := ParseKeyword(p, i + 2, charset, marks);
        if ok {
          end := next;
          return;
        }
      }
    } else if c == 94 || c == 33 {
      if !found && charset[NEGATE] == 0 {
        charset[NEGATE] := 1;
        return false, i + 1, Default, false, marks + {NEGATE};
      }
    } else if c == 92 {
      end := i + 1;
      if At(p, end) == 0 {
        charset[92] := 1;
        return false, end, Default, true, marks + {92};
      }
      marks' := marks + RangeAt(p, end).0;
      end := SetCharOrRange(p, end, charset, marks);
      return;
    } else {
      marks' := marks + RangeAt(p, i).0;
      end := SetCharOrRange(p, i, charset, marks);
      return;
    }
    charset[c] := 1;
    return false, i + 1, st, true, marks + {c as nat};
  }

  // setcharset: p points behind the opening bracket. The scan moves on with every character it looks
  // at and never passes the NUL.
  method SetCharset(p: cstring, start: nat, charset: array<byte>)
    returns (ok: bool, end: nat, ghost marks: set<nat>)
    requires start <= |p| && charset.Length == SIZE
    modifies charset
    ensures match SetAt(p, start)
            case Some((m, close)) => ok && end == close && marks == m && Encodes(charset[..], m)
            case None => !ok
  {
    for k := 0 to SIZE
      invariant forall i :: 0 <= i < k ==> charset[i] == 0
    {
      charset[k] := 0;
    }
    marks := {};
    end := start;
    var st, found := Default, false;
    while true
      invariant start <= end <= |p| && Encodes(charset[..], marks)
      invariant SetAt(p, start) == ParseSet(p, end, st, found, marks)
      decreases |p| - end
    {
      var c := At(p, end);
      if c == 0 {
        return false, end, marks;
      }
      match st
      case Default =>
        var done;
        done, end, st, found, marks := DefaultStep(p, end, found, charset, marks);
        if done {
          return true, end, marks;
        }
      case RightBr =>
        if c == 91 {
          st := RightBrLeftBr;
          charset[c] := 1;
          marks := marks + {91};
          end := end + 1;
        } else if c == 93 {
          return true, end, marks;
        } else if IsPrint(c) {
          charset[c] := 1;
          marks := marks + {c as nat};
          end := end + 1;
          st := Default;
        } else {
          return false, end, marks;
        }
      case RightBrLeftBr =>
        if c == 93 {
          return true, end, marks;
        }
        st := Default;
        charset[c] := 1;
        marks := marks + {c as nat};
        end := end + 1;
    }
  }

  // The membership test of the loop function on the charset array.
  method Test(charset: array<byte>, c: byte, ghost marks: set<nat>) returns (found: bool)
    requires Encodes(charset[..], marks)
    ensures found == Accepts(marks, c)
  {
    found := false;
    if charset[c] != 0 {
      found := true;
    } else if charset[ALNUM] != 0 {
      found := IsAlnum(c);
    } else if charset[ALPHA] != 0 {
      found := IsAlpha(c);
    } else if charset[DIGIT] != 0 {
      found := IsDigit(c);
    } else if charset[XDIGIT] != 0 {
      found := IsXdigit(c);
    } else if charset[PRINT] != 0 {
      found := IsPrint(c);
    } else if charset[SPACE] != 0 {
      found := IsBlank(c);
    } else if charset[UPPER] != 0 {
      found := IsUpper(c);
    } else if charset[LOWER] != 0 {
      found := IsLower(c);
    } else if charset[BLANK] != 0 {
      found := IsBlank(c);
    } else if charset[GRAPH] != 0 {
      found := IsGraph(c);
    }
    if charset[NEGATE] != 0 {
      found := !found;
    }
  }

  // ---- what sets mean ----

  // No role of its own inside a set.
  predicate IsPlain(c: byte) {
    c != 0 && c != 93 && c != 91 && c != 94 && c != 33 && c != 92 && c != 45
  }

  ghost predicate PlainUpTo(p: cstring, i: nat, j: nat)
    requires j <= |p|
  {
    forall k :: i <= k < j ==> IsPlain(p[k])
  }

  ghost function Listed(p: cstring, i: nat, j: nat): set<nat>
    requires j <= |p|
  {
    set k | i <= k < j :: p[k] as nat
  }

  // A set of plain characters marks just these.
  lemma {:induction false} PlainMarks(p: cstring, i: nat, j: nat, found: bool, marks: set<nat>)
    requires i <= j < |p| && PlainUpTo(p, i, j) && p[j] == 93 && (found || i < j)
    ensures ParseSet(p, i, Default, found, marks) == Some((marks + Listed(p, i, j), j))
    decreases j - i
  {
    if i < j {
      assert p[i + 1] != 45;
      assert RangeAt(p, i) == ({p[i] as nat}, i + 1);
      PlainMarks(p, i + 1, j, true, marks + {p[i] as nat});
      assert Listed(p, i, j) == {p[i] as nat} + Listed(p, i + 1, j);
      assert marks + {p[i] as nat} + Listed(p, i + 1, j) == marks + Listed(p, i, j);
      assert ParseSet(p, i, Default, found, marks) == ParseSet(p, i + 1, Default, true, marks + {p[i] as nat});
    } else {
      assert marks + Listed(p, i, j) == marks;
    }
  }

  // [abc] accepts the characters listed.
  lemma PlainSetAccepts(p: cstring, i: nat, j: nat, c: byte)
    requires i < j < |p| && PlainUpTo(p, i, j) && p[j] == 93
    ensures SetAt(p, i).Some? && SetAt(p, i).value.1 == j
    ensures Accepts(SetAt(p, i).value.0, c) <==> c in p[i..j]
  {
    hide ParseSet;
    PlainMarks(p, i, j, false, {});
  }

  // [!abc] and [^abc] accept all others.
  lemma NegatedSetAccepts(p: cstring, i: nat, j: nat, c: byte)
    requires i + 1 < j < |p| && PlainUpTo(p, i + 1, j) && p[j] == 93 && (p[i] == 33 || p[i] == 94)
    ensures SetAt(p, i).Some? && SetAt(p, i).value.1 == j
    ensures Accepts(SetAt(p, i).value.0, c) <==> c !in p[i + 1..j]
  {
    hide ParseSet;
    NegateStep(p, i);
    PlainMarks(p, i + 1, j, false, {NEGATE});
  }

  lemma NegateStep(p: cstring, i: nat)
    requires i < |p| && (p[i] == 33 || p[i] == 94)
    ensures ParseSet(p, i, Default, false, {}) == ParseSet(p, i + 1, Default, false, {NEGATE})
  {
    assert {} + {NEGATE} == {NEGATE};
  }

  // [a-z] accepts the characters between its ends, when these are of one class and in order.
  lemma RangeSetAccepts(p: cstring, i: nat, c: byte)
    requires i + 3 < |p| && IsAlnum(p[i]) && p[i + 1] == 45 && p[i + 3] == 93
    requires p[i] <= p[i + 2] && ClassOf(p[i]) == ClassOf(p[i + 2])
    ensures SetAt(p, i).Some? && SetAt(p, i).value.1 == i + 3
    ensures Accepts(SetAt(p, i).value.0, c) <==> p[i] <= c <= p[i + 2]
  {
    var marks := Span(p[i], p[i + 2]);
    assert RangeAt(p, i) == (marks, i + 3);
    assert {} + marks == marks;
    assert ParseSet(p, i + 3, Default, true, marks) == Some((marks, i + 3));
    assert p[i] <= c <= p[i + 2] <==> InClass(c as nat, ClassOf(p[i])) && p[i] <= c <= p[i + 2];
  }

  // Either end of a range may be escaped.
  lemma EscapedRangeAccepts(p: cstring, i: nat, c: byte)
    requires i + 5 < |p| && p[i] == 92 && IsAlnum(p[i + 1]) && p[i + 2] == 45
    ensures p[i + 4] == 93 && p[i + 1] <= p[i + 3] && ClassOf(p[i + 1]) == ClassOf(p[i + 3]) ==>
      SetAt(p, i).Some? && SetAt(p, i).value.1 == i + 4
      && (Accepts(SetAt(p, i).value.0, c) <==> p[i + 1] <= c <= p[i + 3])
    ensures p[i + 3] == 92 && p[i + 5] == 93 && p[i + 1] <= p[i + 4] && ClassOf(p[i + 1]) == ClassOf(p[i + 4]) ==>
      SetAt(p, i).Some? && SetAt(p, i).value.1 == i + 5
      && (Accepts(SetAt(p, i).value.0, c) <==> p[i + 1] <= c <= p[i + 4])
  {
    hide ParseSet, Accepts, SetAt;
    EscapeStep(p, i);
    var escaped := p[i + 3] == 92;
    var e := if escaped then p[i + 4] else p[i + 3];
    var marks := Span(p[i + 1], e);
    if p[i + 1] <= e && ClassOf(p[i + 1]) == ClassOf(e) {
      assert RangeAt(p, i + 1) == (marks, if escaped then i + 5 else i + 4);
      assert {} + marks == marks;
      SetClosedIf(p, if escaped then i + 5 else i + 4, marks);
      CharactersAccept(marks, c);
      assert p[i + 1] <= c <= e <==> InClass(c as nat, ClassOf(p[i + 1])) && p[i + 1] <= c <= e;
    }
  }

  lemma EscapeStep(p: cstring, i: nat)
    requires i + 1 < |p| && p[i] == 92
    ensures SetAt(p, i) ==
      ParseSet(p, RangeAt(p, i + 1).1, Default, true, {} + RangeAt(p, i + 1).0)
  {
    hide RangeAt, KeywordAt;
  }

  lemma SetClosedIf(p: cstring, i: nat, marks: set<nat>)
    requires i < |p|
    ensures p[i] == 93 ==> ParseSet(p, i, Default, true, marks) == Some((marks, i))
  {
    if p[i] == 93 {
      SetClosed(p, i, marks);
    }
  }

  // A character that stands for itself.
  lemma OneStep(p: cstring, i: nat, found: bool, marks: set<nat>)
    requires i < |p| && (IsPlain(p[i]) || p[i] == 45) && RangeAt(p, i) == ({p[i] as nat}, i + 1)
    ensures ParseSet(p, i, Default, found, marks) == ParseSet(p, i + 1, Default, true, marks + {p[i] as nat})
  {
    hide RangeAt;
  }

  // What follows a closing bracket in the first place.
  lemma AfterBracket(p: cstring, i: nat)
    requires i + 1 < |p| && p[i] == 93
    ensures p[i + 1] == 93 ==> SetAt(p, i) == Some(({93}, i + 1))
    ensures p[i + 1] < 9 || 13 < p[i + 1] < 32 || 126 < p[i + 1] ==> SetAt(p, i) == None
    ensures 32 <= p[i + 1] <= 126 && p[i + 1] != 91 && p[i + 1] != 93 ==>
      SetAt(p, i) == ParseSet(p, i + 2, Default, true, {93, p[i + 1] as nat})
  {
    hide RangeAt, KeywordAt;
    assert {} + {93} == {93} && {93} + {p[i + 1] as nat} == {93, p[i + 1] as nat};
    assert SetAt(p, i) == ParseSet(p, i + 1, RightBr, true, {93});
  }

  // A dash between characters of different classes, or in the wrong order, stands for itself.
  lemma MixedRangeAccepts(p: cstring, i: nat, c: byte)
    requires i + 3 < |p| && IsAlnum(p[i]) && p[i + 1] == 45 && IsPlain(p[i + 2]) && p[i + 3] == 93
    requires p[i + 2] < p[i] || ClassOf(p[i]) != ClassOf(p[i + 2])
    ensures SetAt(p, i).Some? && SetAt(p, i).value.1 == i + 3
    ensures Accepts(SetAt(p, i).value.0, c) <==> c == p[i] || c == 45 || c == p[i + 2]
  {
    hide ParseSet, Accepts;
    CharactersAccept({} + {p[i] as nat} + {45} + {p[i + 2] as nat}, c);
    OneStep(p, i, false, {});
    OneStep(p, i + 1, true, {} + {p[i] as nat});
    OneStep(p, i + 2, true, {} + {p[i] as nat} + {45});
    SetClosed(p, i + 3, {} + {p[i] as nat} + {45} + {p[i + 2] as nat});
  }

  // A closing bracket in the first place is a character of the set, unless an unprintable one follows it.
  lemma BracketFirst(p: cstring, i: nat, j: nat, c: byte)
    requires i + 1 <= j < |p| && p[i] == 93
    ensures p[i + 1] == 93 ==>
      SetAt(p, i).Some? && SetAt(p, i).value.1 == i + 1 && (Accepts(SetAt(p, i).value.0, c) <==> c == 93)
    ensures p[i + 1] < 9 || 13 < p[i + 1] < 32 || 126 < p[i + 1] ==> SetAt(p, i) == None
    ensures 32 <= p[i + 1] <= 126 && i + 1 < j && PlainUpTo(p, i + 1, j) && p[j] == 93 ==>
      && SetAt(p, i).Some? && SetAt(p, i).value.1 == j
      && (Accepts(SetAt(p, i).value.0, c) <==> c == 93 || c in p[i + 1..j])
  {
    hide ParseSet, SetAt, Accepts;
    AfterBracket(p, i);
    CharactersAccept({93}, c);
    if 32 <= p[i + 1] <= 126 && i + 1 < j && PlainUpTo(p, i + 1, j) && p[j] == 93 {
      PlainMarks(p, i + 2, j, true, {93, p[i + 1] as nat});
      CharactersAccept({93, p[i + 1] as nat} + Listed(p, i + 2, j), c);
      assert p[i + 1..j] == [p[i + 1]] + p[i + 2..j];
    }
  }

  // An escaped character is one of the set, whatever it is.
  lemma EscapedAccepts(p: cstring, i: nat, c: byte)
    requires i + 2 < |p| && p[i] == 92 && p[i + 2] == 93
    ensures SetAt(p, i).Some? && SetAt(p, i).value.1 == i + 2
    ensures Accepts(SetAt(p, i).value.0, c) <==> c == p[i + 1]
  {
    assert RangeAt(p, i + 1) == ({p[i + 1] as nat}, i + 2);
    SetClosed(p, i + 2, {} + {p[i + 1] as nat});
  }

  // Behind the first character the signs of negation and a bracket that opens no class are characters of
  // the set.
  lemma LaterSigns(p: cstring, i: nat, c: byte)
    requires i + 2 < |p| && IsPlain(p[i]) && p[i + 2] == 93
    requires p[i + 1] == 33 || p[i + 1] == 94 || p[i + 1] == 91
    ensures SetAt(p, i).Some? && SetAt(p, i).value.1 == i + 2
    ensures Accepts(SetAt(p, i).value.0, c) <==> c == p[i] || c == p[i + 1]
  {
    hide ParseSet, Accepts;
    CharactersAccept({} + {p[i] as nat} + {p[i + 1] as nat}, c);
    assert RangeAt(p, i) == ({p[i] as nat}, i + 1);
    OneStep(p, i, false, {});
    SignStep(p, i + 1, true, {} + {p[i] as nat});
    SetClosed(p, i + 2, {} + {p[i] as nat} + {p[i + 1] as nat});
  }

  lemma SignStep(p: cstring, i: nat, found: bool, marks: set<nat>)
    requires i + 1 < |p| && (p[i] == 33 || p[i] == 94 || (p[i] == 91 && p[i + 1] != 58))
    requires found || p[i] == 91 || NEGATE in marks
    ensures ParseSet(p, i, Default, found, marks) == ParseSet(p, i + 1, Default, true, marks + {p[i] as nat})
  {
    hide RangeAt, KeywordAt;
  }

  // Behind a sign of negation another one is a character.
  lemma NegatedSign(p: cstring, i: nat, c: byte)
    requires i + 2 < |p| && p[i + 2] == 93
    requires (p[i] == 33 || p[i] == 94) && (p[i + 1] == 33 || p[i + 1] == 94)
    ensures SetAt(p, i).Some? && SetAt(p, i).value.1 == i + 2
    ensures Accepts(SetAt(p, i).value.0, c) <==> c != p[i + 1]
  {
    hide ParseSet;
    NegateStep(p, i);
    SignStep(p, i + 1, false, {NEGATE});
    SetClosed(p, i + 2, {NEGATE} + {p[i + 1] as nat});
  }

  // A set that begins with the two brackets: a third one closes it, any other character goes on.
  lemma BothBrackets(p: cstring, i: nat, j: nat, c: byte)
    requires i + 2 <= j < |p| && p[i] == 93 && p[i + 1] == 91 && PlainUpTo(p, i + 2, j) && p[j] == 93
    ensures SetAt(p, i).Some? && SetAt(p, i).value.1 == j
    ensures Accepts(SetAt(p, i).value.0, c) <==> c == 93 || c == 91 || c in p[i + 2..j]
  {
    hide ParseSet, SetAt, Accepts;
    BothBracketsStep(p, i);
    if i + 2 < j {
      PlainMarks(p, i + 3, j, true, {93, 91, p[i + 2] as nat});
      CharactersAccept({93, 91, p[i + 2] as nat} + Listed(p, i + 3, j), c);
      assert p[i + 2..j] == [p[i + 2]] + p[i + 3..j];
    } else {
      CharactersAccept({93, 91}, c);
    }
  }

  // A set without classes and without a sign accepts its characters.
  lemma CharactersAccept(marks: set<nat>, c: byte)
    requires forall m :: m in marks ==> m < 256
    ensures Accepts(marks, c) <==> c as nat in marks
  {
    hide IsAlnum, IsAlpha, IsDigit, IsXdigit, IsPrint, IsBlank, IsUpper, IsLower, IsGraph;
  }

  lemma BothBracketsStep(p: cstring, i: nat)
    requires i + 2 < |p| && p[i] == 93 && p[i + 1] == 91
    ensures SetAt(p, i) ==
      if p[i + 2] == 93 then Some(({93, 91}, i + 2))
      else ParseSet(p, i + 3, Default, true, {93, 91, p[i + 2] as nat})
  {
    hide RangeAt, KeywordAt;
    assert {} + {93} == {93} && {93} + {91} == {93, 91} && {93, 91} + {p[i + 2] as nat} == {93, 91, p[i + 2] as nat};
    assert SetAt(p, i) == ParseSet(p, i + 1, RightBr, true, {93});
    assert ParseSet(p, i + 1, RightBr, true, {93}) == ParseSet(p, i + 2, RightBrLeftBr, true, {93, 91});
  }

  // ---- several classes in one set ----

  predicate InSlot(slot: nat, c: byte) {
    if slot == ALNUM then IsAlnum(c)
    else if slot == ALPHA then IsAlpha(c)
    else if slot == DIGIT then IsDigit(c)
    else if slot == XDIGIT then IsXdigit(c)
    else if slot == PRINT then IsPrint(c)
    else if slot == SPACE then IsBlank(c)
    else if slot == UPPER then IsUpper(c)
    else if slot == LOWER then IsLower(c)
    else if slot == BLANK then IsBlank(c)
    else slot == GRAPH && IsGraph(c)
  }

  // ISSPACE
  predicate IsSpace(c: byte) { IsBlank(c) || 10 <= c <= 13 }

  // [:space:] accepts blanks only: it differs from white space exactly for LF, VT, FF and CR.
  lemma SpaceIsBlank(c: byte)
    ensures Accepts({SPACE}, c) != IsSpace(c) <==> 10 <= c <= 13
  {
  }

  // What a set with several classes should accept: the union.
  ghost predicate Union(marks: set<nat>, c: byte) {
    (c as nat in marks || exists slot :: slot in marks && ALNUM <= slot <= UPPER && InSlot(slot, c))
    != (NEGATE in marks)
  }

  // The class that is asked.
  function FirstClass(marks: set<nat>): nat {
    if ALNUM in marks then ALNUM
    else if ALPHA in marks then ALPHA
    else if DIGIT in marks then DIGIT
    else if XDIGIT in marks then XDIGIT
    else if PRINT in marks then PRINT
    else if SPACE in marks then SPACE
    else if UPPER in marks then UPPER
    else if LOWER in marks then LOWER
    else if BLANK in marks then BLANK
    else GRAPH
  }

  // The classes that a class contains.
  function Within(slot: nat): set<nat> {
    if slot == ALNUM then {ALNUM, ALPHA, DIGIT, XDIGIT, UPPER, LOWER}
    else if slot == ALPHA then {ALPHA, UPPER, LOWER}
    else if slot == PRINT then {PRINT, SPACE, UPPER, LOWER, BLANK, GRAPH}
    else if slot == SPACE then {SPACE, BLANK}
    else {slot}
  }

  ghost predicate OneClassCovers(marks: set<nat>) {
    forall slot :: slot in marks && ALNUM <= slot <= UPPER ==> slot in Within(FirstClass(marks))
  }

  // The code meets the union whenever the first class contains the others ...
  lemma UnionIfCovered(marks: set<nat>, c: byte)
    requires OneClassCovers(marks)
    ensures Accepts(marks, c) == Union(marks, c)
  {
    var first := FirstClass(marks);
    if InSlot(first, c) && first in marks {
      assert ALNUM <= first <= UPPER;
    }
  }

  // ... and for a set of classes alone only then: [[:alpha:][:digit:]] turns down the digits.
  lemma UnionOnlyIfCovered(marks: set<nat>)
    requires forall slot :: slot in marks ==> slot >= NEGATE
    ensures (forall c: byte :: Accepts(marks, c) == Union(marks, c)) <==> OneClassCovers(marks)
  {
    if !OneClassCovers(marks) {
      var slot :| slot in marks && ALNUM <= slot <= UPPER && slot !in Within(FirstClass(marks));
      var c := Witness(FirstClass(marks), slot);
      assert InSlot(slot, c) && !InSlot(FirstClass(marks), c);
      assert Accepts(marks, c) != Union(marks, c);
    }
    if OneClassCovers(marks) {
      forall c: byte
        ensures Accepts(marks, c) == Union(marks, c)
      {
        UnionIfCovered(marks, c);
      }
    }
  }

  // A character of the one class that is not in the other.
  function Witness(first: nat, slot: nat): byte {
    if slot == SPACE || slot == BLANK then 32
    else if slot == PRINT || slot == GRAPH then 33
    else if slot == UPPER then 90
    else if slot == LOWER then 122
    else if slot == XDIGIT then (if first == DIGIT then 97 else 53)
    else 53
  }

  // Whatever else a set lists, it is the union of all it lists exactly when every character of one of its
  // classes is in the first class or listed by itself.
  ghost predicate FirstClassStands(marks: set<nat>) {
    forall slot, c: byte :: slot in marks && ALNUM <= slot <= UPPER && InSlot(slot, c) && c as nat !in marks ==>
      InSlot(FirstClass(marks), c)
  }

  lemma UnionExact(marks: set<nat>)
    ensures (forall c: byte :: Accepts(marks, c) == Union(marks, c)) <==> FirstClassStands(marks)
  {
    hide InSlot, IsAlnum, IsAlpha, IsDigit, IsXdigit, IsPrint, IsBlank, IsUpper, IsLower, IsGraph;
    forall c: byte
      ensures Accepts(marks, c) == Union(marks, c) <==>
        forall slot :: slot in marks && ALNUM <= slot <= UPPER && InSlot(slot, c) && c as nat !in marks ==>
          InSlot(FirstClass(marks), c)
    {
      AcceptsFirst(marks, c);
    }
  }

  // The chain of tests asks the first class of the set, if it has any.
  lemma AcceptsFirst(marks: set<nat>, c: byte)
    ensures var some := exists slot :: slot in marks && ALNUM <= slot <= UPPER;
      && (some ==> FirstClass(marks) in marks && ALNUM <= FirstClass(marks) <= UPPER)
      && Accepts(marks, c) == ((c as nat in marks || (some && InSlot(FirstClass(marks), c))) != (NEGATE in marks))
  {
    hide IsAlnum, IsAlpha, IsDigit, IsXdigit, IsPrint, IsBlank, IsUpper, IsLower, IsGraph;
  }

  // A class in a set.
  lemma ClassParsed(p: cstring, i: nat, word: seq<byte>, slot: nat, found: bool, marks: set<nat>)
    requires i + |word| + 3 < |p| && p[i] == 91 && p[i + 1] == 58
    requires p[i + 2..i + 2 + |word|] == word && AllLower(word) && Lookup(word) == Some(slot)
    requires p[i + 2 + |word|] == 58 && p[i + 3 + |word|] == 93
    ensures ParseSet(p, i, Default, found, marks) == ParseSet(p, i + |word| + 4, Default, true, marks + {slot})
  {
    hide Lookup;
    LowerRunIs(p, i + 2, |word|);
    assert KeywordAt(p, i + 2) == Some((slot, i + |word| + 4));
  }

  lemma SetClosed(p: cstring, i: nat, marks: set<nat>)
    requires i < |p| && p[i] == 93
    ensures ParseSet(p, i, Default, true, marks) == Some((marks, i))
  {
  }

  lemma TwoClasses(p: cstring, a: seq<byte>, x: nat, b: seq<byte>, y: nat)
    requires p == [91, 91, 58] + a + [58, 93, 91, 58] + b + [58, 93, 93]
    requires AllLower(a) && Lookup(a) == Some(x) && AllLower(b) && Lookup(b) == Some(y)
    ensures |p| > 1 && SetAt(p, 1) == Some(({x, y}, |p| - 1))
  {
    hide ParseSet, Lookup, AllLower;
    var i := 5 + |a|;
    assert p[3..3 + |a|] == a && p[i + 2..i + 2 + |b|] == b;
    ClassParsed(p, 1, a, x, false, {});
    ClassParsed(p, i, b, y, true, {} + {x});
    SetClosed(p, i + |b| + 4, {} + {x} + {y});
    assert {} + {x} + {y} == {x, y};
  }

  const ALPHA_WORD: seq<byte> := [97, 108, 112, 104, 97]
  const DIGIT_WORD: seq<byte> := [100, 105, 103, 105, 116]

  // The set of [[:alpha:][:digit:]] turns down the digit five.
  lemma AlphaDigitTurnsDownFive(p: cstring)
    requires p == [91, 91, 58] + ALPHA_WORD + [58, 93, 91, 58] + DIGIT_WORD + [58, 93, 93]
    ensures |p| > 1 && SetAt(p, 1) == Some(({ALPHA, DIGIT}, |p| - 1))
    ensures !Accepts({ALPHA, DIGIT}, 53) && Union({ALPHA, DIGIT}, 53)
  {
    hide SetAt;
    TwoClasses(p, ALPHA_WORD, ALPHA, DIGIT_WORD, DIGIT);
    assert InSlot(DIGIT, 53) && DIGIT in {ALPHA, DIGIT};
  }
}
