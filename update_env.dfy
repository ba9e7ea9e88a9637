/**
 * The post-deployment script that records the economy contract's address in
 * `.env.local`: when the file mentions `NEXT_PUBLIC_ECONOMY_CONTRACT_ADDRESS=`
 * it rewrites the first such assignment that has a value, otherwise it
 * appends the assignment on a line of its own.
 */
module UpdateEnv {
  import opened Wrappers
  import opened Text

  const Key: string := "NEXT_PUBLIC_ECONOMY_CONTRACT_ADDRESS="

  const NewAddress: string := "0x71B167f10A1612D32C2788e1909f0c69133A4383"

  /** The characters ECMAScript's `.` does not match. */
  predicate IsLineTerminator(c: char)
  {
    c == '\n' || c == '\r' || c == '\U{2028}' || c == '\U{2029}'
  }

  /** The pattern `KEY=.+` can start at `i`: the key, then at least one character on the same line. */
  predicate ValuedAt(s: string, i: nat)
  {
    OccursAt(s, Key, i) && i + |Key| < |s| && !IsLineTerminator(s[i + |Key|])
  }

  /** The leftmost position at or after `from` where the pattern matches. */
  function FirstValuedFrom(s: string, from: nat): (r: Option<nat>)
    requires from <= |s|
    ensures r.Some? ==> from <= r.value && ValuedAt(s, r.value)
    ensures forall j: nat :: from <= j && (r.None? || j < r.value) ==> !ValuedAt(s, j)
    decreases |s| - from
  {
    if ValuedAt(s, from) then Some(from)
    else if from + |Key| >= |s| then None
    else FirstValuedFrom(s, from + 1)
  }

  /** Where a leftmost regular-expression search for `KEY=.+` starts its match. */
  function FirstValued(s: string): (r: Option<nat>)
    ensures r.Some? ==> ValuedAt(s, r.value)
    ensures forall j: nat :: (r.None? || j < r.value) ==> !ValuedAt(s, j)
  {
    FirstValuedFrom(s, 0)
  }

  /** Where the greedy `.+` stops: the first line terminator at or after `j`, or the end of the text. */
  function LineEnd(s: string, j: nat): (k: nat)
    requires j <= |s|
    ensures j <= k <= |s|
    ensures forall m :: j <= m < k ==> !IsLineTerminator(s[m])
    ensures k < |s| ==> IsLineTerminator(s[k])
    decreases |s| - j
  {
    if j == |s| || IsLineTerminator(s[j]) then j else LineEnd(s, j + 1)
  }

  /**
   * `s.replace(/KEY=.+/, KEY + addr)`: the first match, the key and the
   * rest of its line, becomes the key and `addr`.  Without a match the text
   * is returned as it was.
   */
  function ReplaceAssignment(s: string, addr: string): (t: string)
  {
    match FirstValued(s)
    case None => s
    case Some(i) => s[..i] + Key + addr + s[LineEnd(s, i + |Key|)..]
  }

  /** The whole transformation of the file text. */
  function EnvUpdate(s: string, addr: string): string
  {
    if IndexOf(s, Key).Some? then ReplaceAssignment(s, addr)
    else s + "\n" + Key + addr + "\n"
  }

  /**
   * The script: `file` is the content of `.env.local`, None when it does not
   * exist; the result is what is written back, None when nothing is written.
   */
  method UpdateEnvFile(file: Option<string>) returns (written: Option<string>)
    ensures file.None? ==> written.None?
    ensures file.Some? ==> written == Some(EnvUpdate(file.value, NewAddress))
  {
    if file.None? {
      return None;
    }
    var content := file.value;
    if IndexOf(content, Key).Some? {
      content := ReplaceAssignment(content, NewAddress);
    } else {
      content := content + "\n" + Key + NewAddress + "\n";
    }
    written := Some(content);
  }

  /** The address the script writes is a plain value: non-empty, one line, no replacement pattern. */
  lemma NewAddressIsPlain()
    ensures NewAddress != [] && '$' !in NewAddress
    ensures forall k :: 0 <= k < |NewAddress| ==> !IsLineTerminator(NewAddress[k])
  {
  }

  /** A value fit for one line of the file. */
  predicate OneLineValue(addr: string)
  {
    addr != [] && forall k :: 0 <= k < |addr| ==> !IsLineTerminator(addr[k])
  }

  lemma FirstValuedAt(s: string, i: nat)
    requires ValuedAt(s, i)
    requires forall j: nat :: j < i ==> !ValuedAt(s, j)
    ensures FirstValued(s) == Some(i)
  {
  }

  lemma LineEndAt(s: string, j: nat, k: nat)
    requires j <= k <= |s|
    requires forall m :: j <= m < k ==> !IsLineTerminator(s[m])
    requires k < |s| ==> IsLineTerminator(s[k])
    ensures LineEnd(s, j) == k
  {
  }

  /** Without the key, the assignment is appended on a line of its own and the old text is kept in front of it. */
  lemma AbsentKeyAppends(s: string, addr: string)
    requires IndexOf(s, Key).None?
    ensures var t := EnvUpdate(s, addr);
      && t[..|s|] == s
      && t[|s|..] == "\n" + Key + addr + "\n"
  {
    var t := EnvUpdate(s, addr);
    assert t == s + ("\n" + Key + addr + "\n");
  }

  /**
   * When the key appears but is followed everywhere by a line end or the
   * end of the text, the check succeeds and the pattern fails: the file
   * is written back unchanged, and nothing is appended.
   */
  lemma EmptyValueUnchanged(s: string, addr: string)
    requires IndexOf(s, Key).Some?
    requires forall j: nat :: OccursAt(s, Key, j) ==> j + |Key| == |s| || IsLineTerminator(s[j + |Key|])
    ensures EnvUpdate(s, addr) == s
  {
    assert FirstValued(s).Some? ==> ValuedAt(s, FirstValued(s).value);
  }

  /**
   * A rewrite changes only the first valued assignment: the text before
   * it and every line after it are kept, and the old value is gone.
   */
  lemma RewriteKeepsRest(s: string, addr: string) returns (i: nat, e: nat)
    requires FirstValued(s).Some?
    ensures ValuedAt(s, i) && forall j: nat :: j < i ==> !ValuedAt(s, j)
    ensures i + |Key| < e <= |s| && (e < |s| ==> IsLineTerminator(s[e]))
    ensures forall m :: i + |Key| <= m < e ==> !IsLineTerminator(s[m])
    ensures EnvUpdate(s, addr) == s[..i] + Key + addr + s[e..]
  {
    i := FirstValued(s).value;
    e := LineEnd(s, i + |Key|);
    assert s[i..i + |Key|] == Key;
    assert IndexOf(s, Key).Some? by {
      assert OccursAt(s, Key, i);
    }
  }

  /**
   * Reading the file after the update, the first valued assignment of the
   * key holds exactly `addr`.
   */
  lemma UpdateSetsValue(s: string, addr: string) returns (j: nat)
    requires OneLineValue(addr)
    requires IndexOf(s, Key).None? || FirstValued(s).Some?
    ensures var t := EnvUpdate(s, addr);
      && FirstValued(t) == Some(j)
      && LineEnd(t, j + |Key|) == j + |Key| + |addr|
      && t[j + |Key|..j + |Key| + |addr|] == addr
  {
    if IndexOf(s, Key).None? {
      j := |s| + 1;
      AppendedIsFirst(s, addr);
    } else {
      var i, e := RewriteKeepsRest(s, addr);
      j := i;
      RewrittenIsFirst(s, addr, i, e);
    }
  }

  /** In the appended text the new assignment is the first valued one, and its line holds `addr`. */
  lemma AppendedIsFirst(s: string, addr: string)
    requires OneLineValue(addr)
    requires IndexOf(s, Key).None?
    ensures var t := s + "\n" + Key + addr + "\n";
      var j := |s| + 1;
      && FirstValued(t) == Some(j)
      && LineEnd(t, j + |Key|) == j + |Key| + |addr|
      && t[j + |Key|..j + |Key| + |addr|] == addr
  {
    var t := s + "\n" + Key + addr + "\n";
    var j := |s| + 1;
    assert t[j..j + |Key|] == Key;
    assert t[j + |Key|..j + |Key| + |addr|] == addr;
    assert t[j + |Key|] == addr[0];
    assert t[|s|] == '\n';
    forall k: nat | k < j
      ensures !ValuedAt(t, k)
    {
      if k + |Key| <= |s| {
        assert t[k..k + |Key|] == s[k..k + |Key|];
        assert !OccursAt(s, Key, k);
      } else {
        NoLineFeedInKey(t, k, |s|);
      }
    }
    FirstValuedAt(t, j);
    forall m | j + |Key| <= m < j + |Key| + |addr|
      ensures !IsLineTerminator(t[m])
    {
      assert t[m] == addr[m - j - |Key|];
    }
    LineEndAt(t, j + |Key|, j + |Key| + |addr|);
  }

  /** An occurrence of the key cannot cover a line feed. */
  lemma NoLineFeedInKey(t: string, k: nat, p: nat)
    requires k <= p < k + |Key| && p < |t| && t[p] == '\n'
    ensures !OccursAt(t, Key, k)
  {
    assert '\n' !in Key;
  }

  /** In the rewritten text the assignment stays the first valued one, and its line now holds `addr`. */
  lemma RewrittenIsFirst(s: string, addr: string, i: nat, e: nat)
    requires OneLineValue(addr)
    requires ValuedAt(s, i) && forall j: nat :: j < i ==> !ValuedAt(s, j)
    requires i + |Key| < e <= |s| && (e < |s| ==> IsLineTerminator(s[e]))
    ensures var t := s[..i] + Key + addr + s[e..];
      && FirstValued(t) == Some(i)
      && LineEnd(t, i + |Key|) == i + |Key| + |addr|
      && t[i + |Key|..i + |Key| + |addr|] == addr
      && t[i + |Key| + |addr|..] == s[e..]
  {
    var t := s[..i] + Key + addr + s[e..];
    var n := i + |Key|;
    assert t[..n] == s[..n] by {
      assert s[..n] == s[..i] + s[i..n];
    }
    assert t[n..n + |addr|] == addr;
    assert t[n + |addr|..] == s[e..];
    assert t[n] == addr[0];
    assert t[i..n] == Key;
    SamePrefixNotValued(s, t, i);
    FirstValuedAt(t, i);
    assert n + |addr| < |t| ==> t[n + |addr|] == s[e];
    ValueLine(t, n, addr);
  }

  /** Text that agrees up to the end of the key at `i` has no valued assignment before `i` either. */
  lemma SamePrefixNotValued(s: string, t: string, i: nat)
    requires i + |Key| < |s| && i + |Key| < |t| && t[..i + |Key|] == s[..i + |Key|]
    requires forall j: nat :: j < i ==> !ValuedAt(s, j)
    ensures forall k: nat :: k < i ==> !ValuedAt(t, k)
  {
    var n := i + |Key|;
    forall k: nat | k < i
      ensures !ValuedAt(t, k)
    {
      assert t[k..k + |Key|] == t[..n][k..k + |Key|] == s[..n][k..k + |Key|] == s[k..k + |Key|];
      assert t[k + |Key|] == t[..n][k + |Key|] == s[k + |Key|];
      assert !ValuedAt(s, k);
    }
  }

  /** A one-line value followed by a line end or the end of the text is where the greedy `.+` stops. */
  lemma ValueLine(t: string, n: nat, addr: string)
    requires OneLineValue(addr) && n + |addr| <= |t| && t[n..n + |addr|] == addr
    requires n + |addr| < |t| ==> IsLineTerminator(t[n + |addr|])
    ensures LineEnd(t, n) == n + |addr|
  {
    forall m | n <= m < n + |addr|
      ensures !IsLineTerminator(t[m])
    {
      assert t[m] == addr[m - n];
    }
    LineEndAt(t, n, n + |addr|);
  }

  /** Running the script a second time writes the same text as the first run. */
  lemma UpdateIdempotent(s: string, addr: string)
    requires OneLineValue(addr)
    ensures EnvUpdate(EnvUpdate(s, addr), addr) == EnvUpdate(s, addr)
  {
    var t := EnvUpdate(s, addr);
    if IndexOf(s, Key).None? {
      AppendedIsFirst(s, addr);
      ReplaceAtFirst(t, addr, |s| + 1);
    } else if FirstValued(s).None? {
      assert t == s;
    } else {
      var i, e := RewriteKeepsRest(s, addr);
      RewrittenIsFirst(s, addr, i, e);
      ReplaceAtFirst(t, addr, i);
    }
  }

  /** Rewriting a text whose first valued assignment already holds `addr` gives the same text. */
  lemma ReplaceAtFirst(t: string, addr: string, j: nat)
    requires FirstValued(t) == Some(j)
    requires LineEnd(t, j + |Key|) == j + |Key| + |addr|
    requires t[j + |Key|..j + |Key| + |addr|] == addr
    ensures EnvUpdate(t, addr) == t
  {
    assert OccursAt(t, Key, j);
    assert IndexOf(t, Key).Some?;
    var n := j + |Key|;
    assert t[j..n] == Key;
    Reassemble(t, j, n, n + |addr|);
  }

  lemma Reassemble(t: string, a: nat, b: nat, c: nat)
    requires a <= b <= c <= |t|
    ensures t[..a] + t[a..b] + t[b..c] + t[c..] == t
  {
    assert t[..a] + t[a..b] == t[..b];
    assert t[..b] + t[b..c] == t[..c];
  }
}
