/** The private-key repair in `init_firebase`: a key read from the deployment
    secrets may carry each newline as the two characters backslash and `n`;
    those are turned back into newlines before the credentials are built. */
module Secrets {
  import opened Strings

  /** The two characters backslash and `n`. */
  const EscapedNewline: string := "\\n"

  /** `s.replace("\\n", "\n")`: every backslash-`n`, taken left to right
      without overlaps, becomes a newline. */
  function ReplaceEscapes(s: string): (r: string)
    ensures |r| <= |s|
    ensures !Contains(s, EscapedNewline) ==> r == s
    ensures Contains(s, EscapedNewline) ==> |r| < |s|
    decreases |s|
  {
    if |s| >= 2 && s[0] == '\\' && s[1] == 'n' then
      assert OccursAt(s, EscapedNewline, 0);
      "\n" + ReplaceEscapes(s[2..])
    else if s == [] then []
    else
      ContainsPastHead(s);
      [s[0]] + ReplaceEscapes(s[1..])
  }

  /** When the text does not open with a backslash-`n`, it holds one exactly
      when its tail does. */
  lemma ContainsPastHead(s: string)
    requires s != [] && !OccursAt(s, EscapedNewline, 0)
    ensures Contains(s, EscapedNewline) <==> Contains(s[1..], EscapedNewline)
  {
    if Contains(s, EscapedNewline) {
      var i :| OccursAt(s, EscapedNewline, i);
      assert s[1..][i - 1..i + 1] == s[i..i + 2];
      assert OccursAt(s[1..], EscapedNewline, i - 1);
    }
    if Contains(s[1..], EscapedNewline) {
      var i :| OccursAt(s[1..], EscapedNewline, i);
      assert s[1..][i..i + 2] == s[i + 1..i + 3];
      assert OccursAt(s, EscapedNewline, i + 1);
    }
  }

  /** The repair: applied only when the key holds a backslash-`n`. */
  function FixPrivateKey(pk: string): (r: string)
    ensures !Contains(pk, EscapedNewline) ==> r == pk
    ensures !Contains(r, EscapedNewline)
  {
    if Occurs(EscapedNewline, pk) then
      NoEscapeLeft(pk);
      ReplaceEscapes(pk)
    else pk
  }

  /** What the replacement puts first. */
  lemma ReplaceEscapesHead(s: string)
    requires s != []
    ensures ReplaceEscapes(s) != []
    ensures ReplaceEscapes(s)[0] == if |s| >= 2 && s[0] == '\\' && s[1] == 'n' then '\n' else s[0]
  {
  }

  /** The replacement never opens with a backslash-`n`: a kept backslash is
      followed by a newline or by the character after it in the input, which
      is not an `n`. */
  lemma HeadNotEscape(s: string)
    ensures !OccursAt(ReplaceEscapes(s), EscapedNewline, 0)
  {
    var r := ReplaceEscapes(s);
    if |r| >= 2 && r[0] == '\\' {
      ReplaceEscapesHead(s);
      assert !(|s| >= 2 && s[0] == '\\' && s[1] == 'n') && |s| >= 2;
      var rt := ReplaceEscapes(s[1..]);
      assert r == [s[0]] + rt;
      ReplaceEscapesHead(s[1..]);
      assert r[1] == rt[0] && r[1] != 'n';
      assert r[..2] != EscapedNewline;
    }
  }

  /** A text whose tail holds no backslash-`n` holds none past its head. */
  lemma TailNoEscape(r: string, rt: string)
    requires |r| >= 1 && r[1..] == rt && !Contains(rt, EscapedNewline)
    ensures forall i | 0 < i <= |r| - 2 :: !OccursAt(r, EscapedNewline, i)
  {
    forall i | 0 < i <= |r| - 2
      ensures !OccursAt(r, EscapedNewline, i)
    {
      assert r[i..i + 2] == rt[i - 1..i + 1];
      assert !OccursAt(rt, EscapedNewline, i - 1);
    }
  }

  /** No backslash-`n` survives the replacement: a backslash that is kept is
      never followed by an `n`. */
  lemma {:induction false} NoEscapeLeft(s: string)
    ensures !Contains(ReplaceEscapes(s), EscapedNewline)
    decreases |s|
  {
    if s != [] {
      var escaped := |s| >= 2 && s[0] == '\\' && s[1] == 'n';
      var tail := if escaped then s[2..] else s[1..];
      NoEscapeLeft(tail);
      var r := ReplaceEscapes(s);
      assert r[1..] == ReplaceEscapes(tail);
      HeadNotEscape(s);
      TailNoEscape(r, ReplaceEscapes(tail));
    }
  }

  /** Repairing twice is repairing once. */
  lemma FixIdempotent(pk: string)
    ensures FixPrivateKey(FixPrivateKey(pk)) == FixPrivateKey(pk)
  {
  }

  /** How the secret store holds a key: each newline written as backslash-`n`. */
  function EscapeNewlines(s: string): (r: string)
    ensures |r| >= |s|
    decreases |s|
  {
    if s == [] then []
    else if s[0] == '\n' then EscapedNewline + EscapeNewlines(s[1..])
    else [s[0]] + EscapeNewlines(s[1..])
  }

  lemma EscapeNewlinesHead(s: string)
    requires s != []
    ensures EscapeNewlines(s) != []
    ensures EscapeNewlines(s)[0] == if s[0] == '\n' then '\\' else s[0]
  {
  }

  lemma EscapeKeepsWithoutNewline(s: string)
    requires '\n' !in s
    ensures EscapeNewlines(s) == s
  {
    if s != [] {
      EscapeKeepsWithoutNewline(s[1..]);
    }
  }

  /** Un-escaping undoes escaping, for any text that did not already hold a
      backslash-`n` of its own. */
  lemma {:induction false} ReplaceUndoesEscape(s: string)
    requires !Contains(s, EscapedNewline)
    ensures ReplaceEscapes(EscapeNewlines(s)) == s
    decreases |s|
  {
    if s != [] {
      var t := s[1..];
      assert !Contains(t, EscapedNewline) by {
        forall i | OccursAt(t, EscapedNewline, i)
          ensures OccursAt(s, EscapedNewline, i + 1)
        {
          assert s[i + 1..i + 3] == t[i..i + 2];
        }
      }
      ReplaceUndoesEscape(t);
      var e := EscapeNewlines(s);
      if s[0] == '\n' {
        assert e == "\\n" + EscapeNewlines(t);
        assert e[2..] == EscapeNewlines(t);
      } else {
        assert e == [s[0]] + EscapeNewlines(t);
        assert e[1..] == EscapeNewlines(t);
        if s[0] == '\\' && t != [] {
          assert t[0] != 'n' by {
            assert !OccursAt(s, EscapedNewline, 0);
          }
          EscapeNewlinesHead(t);
        }
      }
    }
  }

  /** A text with a newline escapes to one with a backslash-`n`. */
  lemma {:induction false} EscapeShowsNewline(s: string)
    requires '\n' in s
    ensures Contains(EscapeNewlines(s), EscapedNewline)
    decreases |s|
  {
    var e := EscapeNewlines(s);
    if s[0] == '\n' {
      assert e[..2] == EscapedNewline;
      assert OccursAt(e, EscapedNewline, 0);
    } else {
      EscapeShowsNewline(s[1..]);
      var i :| OccursAt(EscapeNewlines(s[1..]), EscapedNewline, i);
      assert e == [s[0]] + EscapeNewlines(s[1..]);
      assert e[i + 1..i + 3] == EscapeNewlines(s[1..])[i..i + 2];
      assert OccursAt(e, EscapedNewline, i + 1);
    }
  }

  /** A key stored with its newlines escaped is repaired to the original key. */
  lemma FixRestoresKey(key: string)
    requires !Contains(key, EscapedNewline)
    ensures FixPrivateKey(EscapeNewlines(key)) == key
  {
    ReplaceUndoesEscape(key);
    if '\n' !in key {
      EscapeKeepsWithoutNewline(key);
    } else {
      EscapeShowsNewline(key);
    }
  }
}
