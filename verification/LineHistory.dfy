/** The history of a line editor: a bounded list of lines that drops consecutive duplicates
    and owns the memory of its lines. */
module LineHistory {

  /** A line on the heap. Only a live one can be freed. */
  class CString {
    const text: string
    var live: bool

    constructor StrDup(text: string)
      ensures this.text == text && live
    {
      this.text, live := text, true;
    }

    method Free()
      requires live
      modifies this`live
      ensures !live
    {
      live := false;
    }
  }

  // ---------- what the history is to contain ----------

  /** The newest `n` of the lines. */
  function Newest(lines: seq<string>, n: nat): seq<string>
  {
    if |lines| <= n then lines else lines[|lines| - n..]
  }

  function Added(lines: seq<string>, line: string, max: nat): (r: seq<string>)
    ensures max >= 1 ==> r != [] && r[|r| - 1] == line
  {
    if max == 0 || (lines != [] && lines[|lines| - 1] == line) then lines else Newest(lines + [line], max)
  }

  /** The lines without those that repeat the line in front of them. */
  function Collapsed(lines: seq<string>): (r: seq<string>)
    ensures (r == [] <==> lines == []) && (lines != [] ==> r[|r| - 1] == lines[|lines| - 1])
  {
    if |lines| <= 1 then lines
    else
      var before := Collapsed(lines[..|lines| - 1]);
      if lines[|lines| - 2] == lines[|lines| - 1] then before else before + [lines[|lines| - 1]]
  }

  function AddedAll(lines: seq<string>, max: nat): seq<string>
  {
    if lines == [] then [] else Added(AddedAll(lines[..|lines| - 1], max), lines[|lines| - 1], max)
  }

  lemma NewestLast(lines: seq<string>, n: nat)
    requires lines != [] && n >= 1
    ensures Newest(lines, n) != [] && Newest(lines, n)[|Newest(lines, n)| - 1] == lines[|lines| - 1]
  {
  }

  lemma NewestMore(lines: seq<string>, line: string, n: nat)
    requires n >= 1
    ensures Newest(Newest(lines, n) + [line], n) == Newest(lines + [line], n)
  {
  }

  /** Adding lines one by one, each compared with the newest line only, keeps the newest lines
      of the collapsed input. */
  lemma {:induction false} AddedIsNewest(lines: seq<string>, max: nat)
    requires max >= 1
    ensures AddedAll(lines, max) == Newest(Collapsed(lines), max)
    decreases |lines|
  {
    hide Newest;
    if lines == [] {
      OneNewest([], max);
    } else {
      var before, line := lines[..|lines| - 1], lines[|lines| - 1];
      AddedIsNewest(before, max);
      var c := Collapsed(before);
      NewestMore(c, line, max);
      if before == [] {
        assert c == [] && Collapsed(lines) == [] + [line] == lines;
        OneNewest(line, max);
      } else {
        NewestLast(c, max);
      }
    }
  }

  lemma OneNewest(line: string, max: nat)
    requires max >= 1
    ensures Newest([], max) == [] && Newest([line], max) == [line]
  {
  }

  // ---------- the list and its memory ----------

  /** The lines are live, each stands in one slot, and no other line of `made` is live. */
  ghost predicate Held(lines: seq<CString?>, made: set<CString>)
    reads made
  {
    && (forall i | 0 <= i < |lines| :: lines[i] in made && lines[i].live)
    && (forall i, j | 0 <= i < j < |lines| :: lines[i] != lines[j])
    && (forall s | s in made && s.live :: s in lines)
  }

  ghost function Texts(lines: seq<CString?>, made: set<CString>): (c: seq<string>)
    requires Held(lines, made)
    reads made
    ensures |c| == |lines|
  {
    seq(|lines|, i requires 0 <= i < |lines| && Held(lines, made) reads made => lines[i].text)
  }

  /** Frees the oldest of the lines. */
  method FreeFirst(first: CString?, ghost lines: seq<CString?>, ghost made: set<CString>)
    requires lines != [] && lines[0] == first && Held(lines, made)
    modifies made
    ensures Held(lines[1..], made) && Texts(lines[1..], made) == old(Texts(lines, made))[1..]
  {
    first.Free();
    assert lines == [first] + lines[1..];
  }

  /** A new buffer of `n` slots with some of the lines of the old one. */
  method CopyLines(slots: array<CString?>, from: nat, count: nat, n: nat) returns (copy: array<CString?>)
    requires from + count <= slots.Length && count <= n
    ensures fresh(copy) && copy.Length == n && copy[..count] == slots[from..from + count]
  {
    copy := new CString?[n](_ => null);
    forall i | 0 <= i < count {
      copy[i] := slots[from + i];
    }
  }

  class History {
    /** The lines, oldest first, in a buffer that is allocated when the first line comes. */
    var slots: array<CString?>
    var hasBuffer: bool
    var len: nat
    var maxLen: nat
    /** Every line that was ever allocated for the history. */
    ghost var made: set<CString>

    ghost predicate Valid()
      reads this, slots, made
    {
      && len <= maxLen && slots.Length == (if hasBuffer then maxLen else 0)
      && len <= slots.Length && Held(slots[..len], made)
    }

    ghost function Contents(): (c: seq<string>)
      requires Valid()
      reads this, slots, made
      ensures |c| == len
    {
      Texts(slots[..len], made)
    }

    constructor (maxLen: nat)
      ensures Valid() && Contents() == [] && this.maxLen == maxLen && made == {} && fresh(slots)
    {
      slots := new CString?[0];
      hasBuffer, len, this.maxLen, made := false, 0, maxLen, {};
    }

    /** Frees the oldest line and moves the others up. */
    method DropOldest()
      requires Valid() && len > 0
      modifies this`len, slots, made
      ensures Valid() && len == old(len) - 1 && Contents() == old(Contents())[1..]
    {
      hide Held;
      ghost var before := slots[..len];
      FreeFirst(slots[0], before, made);
      forall i | 0 <= i < len - 1 {
        slots[i] := slots[i + 1];
      }
      len := len - 1;
      assert slots[..len] == before[1..];
    }

    /** Adds a copy of the line at the end. */
    method Append(line: string)
      requires Valid() && len < slots.Length
      modifies this`len, this`made, slots
      ensures Valid() && len == old(len) + 1 && Contents() == old(Contents()) + [line] && fresh(made - old(made))
    {
      var copy := new CString.StrDup(line);
      made := made + {copy};
      ghost var before := slots[..len];
      slots[len] := copy;
      len := len + 1;
      assert slots[..len] == before + [copy];
    }

    method TextAt(i: nat) returns (text: string)
      requires Valid() && i < len
      ensures text == Contents()[i]
    {
      assert slots[..len][i] == slots[i];
      text := slots[i].text;
    }

    /** Adds a line unless it repeats the newest one; drops the oldest line if there is no
        room. */
    method Add(line: string) returns (added: bool)
      requires Valid()
      modifies this, slots, made
      ensures Valid() && Contents() == Added(old(Contents()), line, maxLen) && maxLen == old(maxLen)
      ensures added == (maxLen > 0 && !(old(len) > 0 && old(Contents())[old(len) - 1] == line))
      ensures (slots == old(slots) || fresh(slots)) && fresh(made - old(made))
    {
      hide Held, Texts;
      if maxLen == 0 {
        return false;
      }
      if !hasBuffer {
        slots := new CString?[maxLen](_ => null);
        hasBuffer := true;
        assert slots[..len] == old(slots[..len]);
      }
      if len > 0 {
        var last := TextAt(len - 1);
        if last == line {
          return false;
        }
      }
      if len == maxLen {
        DropOldest();
      }
      Append(line);
      added := true;
    }

    /** Bounds the history by a new length: the newest lines stay, the others are freed. */
    method SetMaxLen(n: int) returns (ok: bool)
      requires Valid()
      modifies this, slots, made
      ensures Valid() && ok == (n >= 1) && made == old(made) && (slots == old(slots) || fresh(slots))
      ensures maxLen == (if ok then n else old(maxLen))
      ensures Contents() == if ok then Newest(old(Contents()), n) else old(Contents())
    {
      hide Held, Texts;
      if n < 1 {
        return false;
      }
      if hasBuffer {
        var copied := if len < n then len else n;
        FreeOldest(len - copied);
        slots := CopyLines(slots, len - copied, copied, n);
        len := copied;
      }
      maxLen := n;
      ok := true;
    }

    /** Frees the oldest lines, which the caller drops from the buffer. */
    method FreeOldest(count: nat)
      requires Valid() && count <= len
      modifies made
      ensures Held(slots[count..len], made) && Texts(slots[count..len], made) == old(Contents())[count..]
    {
      hide Held;
      assert slots[0..len] == slots[..len];
      for j := 0 to count
        invariant Held(slots[j..len], made) && Texts(slots[j..len], made) == old(Contents())[j..]
      {
        ghost var lines := slots[j..len];
        assert lines[0] == slots[j] && lines[1..] == slots[j + 1..len];
        FreeFirst(slots[j], lines, made);
      }
    }

    /** Replaces the text of the line number `i`: the old copy is freed, the new one kept. */
    method Rewrite(i: nat, text: string)
      requires Valid() && i < len
      modifies this`made, slots, made
      ensures Valid() && Contents() == old(Contents())[i := text] && fresh(made - old(made))
    {
      slots[i].Free();
      var copy := new CString.StrDup(text);
      made := made + {copy};
      ghost var before := slots[..len];
      slots[i] := copy;
      assert slots[..len] == before[i := copy];
      forall s | s in before && s != before[i] ensures s in slots[..len] {
        var j :| 0 <= j < |before| && before[j] == s;
        assert slots[..len][j] == s;
      }
    }

    /** Frees the newest line. */
    method DropNewest()
      requires Valid() && len > 0
      modifies this`len, made
      ensures Valid() && len == old(len) - 1 && Contents() == old(Contents())[..len]
    {
      len := len - 1;
      slots[len].Free();
      assert slots[..len + 1] == slots[..len] + [slots[len]];
    }
  }

  /** After any run of adds the history has the newest lines of the collapsed input. */
  method AddAll(max: nat, lines: seq<string>) returns (h: History)
    requires max >= 1
    ensures h.Valid() && h.Contents() == Newest(Collapsed(lines), max)
  {
    h := new History(max);
    for i := 0 to |lines|
      invariant h.Valid() && fresh(h) && fresh(h.slots) && fresh(h.made) && h.maxLen == max
      invariant h.Contents() == AddedAll(lines[..i], max)
    {
      assert lines[..i + 1][..i] == lines[..i];
      var _ := h.Add(lines[i]);
    }
    assert lines[..|lines|] == lines;
    AddedIsNewest(lines, max);
  }
}
