/** The `KEY=VALUE` configuration reader of the gateway (namespace Util).
    The file is read as whitespace-delimited tokens, each token is split at its
    first `=`, and the pair is inserted with "insert unless present" semantics,
    so the first occurrence of a key wins. */
module Util {
  import opened Wrappers

  // ---------------------------------------------------------------------------
  // Tokenizer: what extracting `std::string`s from a stream yields
  // ---------------------------------------------------------------------------

  /** The characters the "C" locale classifies as white space */
  predicate IsSpace(c: char)
  {
    c == ' ' || c == '\t' || c == '\n' || c == '\U{000B}' || c == '\U{000C}' || c == '\r'
  }

  /** A token as the stream delivers it: non-empty and free of white space */
  predicate IsToken(w: string)
  {
    |w| > 0 && forall i :: 0 <= i < |w| ==> !IsSpace(w[i])
  }

  /** The longest prefix of `s` that holds no white space */
  function Word(s: string): (w: string)
    ensures w <= s
    ensures forall i :: 0 <= i < |w| ==> !IsSpace(w[i])
    ensures |w| == |s| || IsSpace(s[|w|])
  {
    if s == [] || IsSpace(s[0]) then [] else [s[0]] + Word(s[1..])
  }

  /** The tokens of `s`, in order: white space is skipped, and each maximal
      run of other characters is one token */
  function Tokens(s: string): (r: seq<string>)
    ensures forall i :: 0 <= i < |r| ==> IsToken(r[i])
    decreases |s|
  {
    if s == [] then []
    else if IsSpace(s[0]) then Tokens(s[1..])
    else
      var w := Word(s);
      [w] + Tokens(s[|w|..])
  }

  /** A well-formed file: every token on a line of its own */
  function Lines(ws: seq<string>): string
  {
    if ws == [] then [] else ws[0] + "\n" + Lines(ws[1..])
  }

  /** Leading white space produces no token */
  lemma {:induction false} TokensSkipSpace(sep: string, s: string)
    requires forall i :: 0 <= i < |sep| ==> IsSpace(sep[i])
    ensures Tokens(sep + s) == Tokens(s)
    decreases |sep|
  {
    if sep == [] {
      assert sep + s == s;
    } else {
      assert (sep + s)[0] == sep[0];
      assert (sep + s)[1..] == sep[1..] + s;
      TokensSkipSpace(sep[1..], s);
    }
  }

  /** A token followed by white space (or by nothing) is read whole */
  lemma {:induction false} WordOfToken(w: string, s: string)
    requires forall i :: 0 <= i < |w| ==> !IsSpace(w[i])
    requires s == [] || IsSpace(s[0])
    ensures Word(w + s) == w
    decreases |w|
  {
    if w == [] {
      assert w + s == s;
    } else {
      assert (w + s)[1..] == w[1..] + s;
      WordOfToken(w[1..], s);
    }
  }

  /** A token followed by white space (or by nothing) comes out as one token */
  lemma TokensOfWord(w: string, s: string)
    requires IsToken(w)
    requires s == [] || IsSpace(s[0])
    ensures Tokens(w + s) == [w] + Tokens(s)
  {
    WordOfToken(w, s);
    assert (w + s)[0] == w[0];
    assert (w + s)[|w|..] == s;
  }

  /** Reading back a file written one token per line gives those tokens */
  lemma {:induction false} TokensOfLines(ws: seq<string>)
    requires forall i :: 0 <= i < |ws| ==> IsToken(ws[i])
    ensures Tokens(Lines(ws)) == ws
  {
    if ws != [] {
      var rest := Lines(ws[1..]);
      assert Lines(ws) == ws[0] + ("\n" + rest);
      TokensOfWord(ws[0], "\n" + rest);
      TokensSkipSpace("\n", rest);
      TokensOfLines(ws[1..]);
      assert [ws[0]] + ws[1..] == ws;
    }
  }

  // ---------------------------------------------------------------------------
  // Splitting one token at its first `=`
  // ---------------------------------------------------------------------------

  /** Position of the first `c` in `s`, None when `c` does not occur */
  function FindFirst(s: string, c: char): (r: Option<nat>)
    ensures r.None? <==> c !in s
    ensures r.Some? ==> r.value < |s| && s[r.value] == c && c !in s[..r.value]
  {
    if s == [] then None
    else if s[0] == c then Some(0)
    else
      match FindFirst(s[1..], c)
      case None => None
      case Some(i) =>
        assert s[..i + 1] == [s[0]] + s[1..][..i];
        Some(i + 1)
  }

  datatype Entry = Entry(key: string, value: string)

  /** The key/value pair a token declares: the text before its first `=` and
      everything after it; None for a token without `=` */
  function SplitEntry(token: string): (r: Option<Entry>)
    ensures r.None? <==> '=' !in token
    ensures r.Some? ==> '=' !in r.value.key && r.value.key + "=" + r.value.value == token
  {
    match FindFirst(token, '=')
    case None => None
    case Some(pos) =>
      assert token == token[..pos] + "=" + token[pos + 1..];
      Some(Entry(token[..pos], token[pos + 1..]))
  }

  /** The split is the only one whose key holds no `=`: the key is exactly the
      text before the first `=`, and the value may itself hold `=` */
  lemma SplitEntryUnique(token: string, k: string, v: string)
    requires '=' !in k && k + "=" + v == token
    ensures SplitEntry(token) == Some(Entry(k, v))
  {
    var e := SplitEntry(token).value;
    assert token[|k|] == '=';
    assert token[|e.key|] == '=';
    assert |e.key| == |k|;
    assert e.key == token[..|k|] == k;
    assert e.value == token[|k| + 1..] == v;
  }

  // ---------------------------------------------------------------------------
  // Building the table
  // ---------------------------------------------------------------------------

  /** Insert-unless-present: an existing key keeps its value */
  function Emplace(m: map<string, string>, e: Entry): (r: map<string, string>)
    ensures r.Keys == m.Keys + {e.key}
    ensures forall k :: k in m ==> r[k] == m[k]
    ensures e.key !in m ==> r[e.key] == e.value
  {
    if e.key in m then m else m[e.key := e.value]
  }

  /** What one token does to the table */
  function Step(m: map<string, string>, token: string): map<string, string>
  {
    match SplitEntry(token)
    case None => m
    case Some(e) => Emplace(m, e)
  }

  /** The table after the tokens, consumed left to right */
  function Build(tokens: seq<string>): map<string, string>
  {
    if tokens == [] then map[]
    else Step(Build(tokens[..|tokens| - 1]), tokens[|tokens| - 1])
  }

  /** The table for the file contents; None is a file that could not be opened */
  function Parse(contents: Option<string>): map<string, string>
  {
    match contents
    case None => map[]
    case Some(text) => Build(Tokens(text))
  }

  // ---------------------------------------------------------------------------
  // Reference descriptions of the table, and the lemmas tying Build to them
  // ---------------------------------------------------------------------------

  /** The keys the tokens declare: the before-first-`=` prefixes of the tokens that hold `=` */
  ghost function DeclaredKeys(tokens: seq<string>): set<string>
  {
    set i | 0 <= i < |tokens| && SplitEntry(tokens[i]).Some? :: SplitEntry(tokens[i]).value.key
  }

  /** The value of the first token, front to back, that declares `k` */
  function FirstValue(tokens: seq<string>, k: string): Option<string>
  {
    if tokens == [] then None
    else
      var e := SplitEntry(tokens[0]);
      if e.Some? && e.value.key == k then Some(e.value.value)
      else FirstValue(tokens[1..], k)
  }

  /** Appending a token adds at most the key that token declares */
  lemma DeclaredKeysSnoc(tokens: seq<string>, t: string)
    ensures DeclaredKeys(tokens + [t]) ==
      DeclaredKeys(tokens) + (if SplitEntry(t).Some? then {SplitEntry(t).value.key} else {})
  {
    var all := tokens + [t];
    forall k | k in DeclaredKeys(all)
      ensures k in DeclaredKeys(tokens) || (SplitEntry(t).Some? && k == SplitEntry(t).value.key)
    {
      var i :| 0 <= i < |all| && SplitEntry(all[i]).Some? && SplitEntry(all[i]).value.key == k;
      if i < |tokens| {
        assert all[i] == tokens[i];
      }
    }
    forall k | k in DeclaredKeys(tokens) ensures k in DeclaredKeys(all) {
      var i :| 0 <= i < |tokens| && SplitEntry(tokens[i]).Some? && SplitEntry(tokens[i]).value.key == k;
      assert all[i] == tokens[i];
    }
    if SplitEntry(t).Some? {
      assert all[|tokens|] == t;
    }
  }

  /** The table's keys are exactly the keys the tokens declare */
  lemma {:induction false} BuildKeys(tokens: seq<string>)
    ensures Build(tokens).Keys == DeclaredKeys(tokens)
  {
    if tokens != [] {
      var n := |tokens| - 1;
      BuildKeys(tokens[..n]);
      DeclaredKeysSnoc(tokens[..n], tokens[n]);
      assert tokens[..n] + [tokens[n]] == tokens;
    }
  }

  /** Appending a token to the file only matters for a key not declared before it */
  lemma {:induction false} FirstValueSnoc(tokens: seq<string>, t: string, k: string)
    ensures FirstValue(tokens + [t], k) ==
      if FirstValue(tokens, k).Some? then FirstValue(tokens, k)
      else if SplitEntry(t).Some? && SplitEntry(t).value.key == k then Some(SplitEntry(t).value.value)
      else None
  {
    if tokens == [] {
      assert [t][1..] == [];
    } else {
      assert (tokens + [t])[0] == tokens[0];
      assert (tokens + [t])[1..] == tokens[1..] + [t];
      FirstValueSnoc(tokens[1..], t, k);
    }
  }

  /** First occurrence wins: a key is in the table exactly when some token
      declares it, and its value is that of the first such token */
  lemma {:induction false} BuildFirstWins(tokens: seq<string>, k: string)
    ensures k in Build(tokens) <==> FirstValue(tokens, k).Some?
    ensures k in Build(tokens) ==> Build(tokens)[k] == FirstValue(tokens, k).value
  {
    if tokens != [] {
      var n := |tokens| - 1;
      BuildFirstWins(tokens[..n], k);
      FirstValueSnoc(tokens[..n], tokens[n], k);
      assert tokens[..n] + [tokens[n]] == tokens;
    }
  }

  /** Once stored, a value never changes, whatever tokens follow */
  lemma {:induction false} StoredValueStable(tokens: seq<string>, more: seq<string>, k: string)
    requires k in Build(tokens)
    ensures k in Build(tokens + more) && Build(tokens + more)[k] == Build(tokens)[k]
    decreases |more|
  {
    if more == [] {
      assert tokens + more == tokens;
    } else {
      var n := |more| - 1;
      var all := tokens + more;
      StoredValueStable(tokens, more[..n], k);
      assert all[..|all| - 1] == tokens + more[..n];
      assert Build(all) == Step(Build(tokens + more[..n]), all[|all| - 1]);
    }
  }

  /** A later token whose key is already present leaves the table as it is */
  lemma LaterDuplicateIgnored(tokens: seq<string>, t: string)
    requires SplitEntry(t).Some? && SplitEntry(t).value.key in Build(tokens)
    ensures Build(tokens + [t]) == Build(tokens)
  {
    assert (tokens + [t])[..|tokens|] == tokens;
  }

  /** A token without `=` can be dropped from anywhere in the file */
  lemma {:induction false} NoAssignmentDropped(front: seq<string>, t: string, back: seq<string>)
    requires '=' !in t
    ensures Build(front + [t] + back) == Build(front + back)
    decreases |back|
  {
    if back == [] {
      assert front + [t] + back == front + [t];
      assert (front + [t])[..|front|] == front;
      assert front + back == front;
    } else {
      var n := |back| - 1;
      NoAssignmentDropped(front, t, back[..n]);
      assert (front + [t] + back)[..|front + [t] + back| - 1] == front + [t] + back[..n];
      assert (front + back)[..|front + back| - 1] == front + back[..n];
    }
  }

  /** Blanks around `=` split the assignment into three tokens: only the lone
      `=` declares something, the empty key with the empty value */
  lemma SpacedAssignment(key: string, value: string)
    requires IsToken(key) && IsToken(value)
    requires '=' !in key && '=' !in value
    ensures Parse(Some(key + " = " + value)) == map["" := ""]
  {
    SpacedTokens(key, value);
    var tokens := [key, "=", value];
    SplitEntryUnique("=", "", "");
    assert [key][..0] == [];
    assert Build([key]) == map[];
    assert [key, "="][..1] == [key];
    assert Build([key, "="]) == map["" := ""];
    assert tokens[..2] == [key, "="];
    assert Build(tokens) == map["" := ""];
  }

  lemma SpacedTokens(key: string, value: string)
    requires IsToken(key) && IsToken(value)
    ensures Tokens(key + " = " + value) == [key, "=", value]
  {
    var eq := "=";
    assert IsToken(eq);
    assert key + " = " + value == key + (" " + (eq + (" " + value)));
    assert value == value + "";
    TokensOfWord(value, "");
    TokensSkipSpace(" ", value);
    TokensOfWord(eq, " " + value);
    TokensSkipSpace(" ", eq + (" " + value));
    TokensOfWord(key, " " + (eq + (" " + value)));
  }

  // ---------------------------------------------------------------------------
  // The reader object
  // ---------------------------------------------------------------------------

  /** The configuration table, filled once when the object is made */
  class ConfigParser {
    var variables: map<string, string>

    /** Reads the file contents token by token; None means the file could not
        be opened, which leaves the table empty */
    constructor (contents: Option<string>)
      ensures variables == Parse(contents)
      ensures contents.None? ==> variables == map[]
    {
      var vars: map<string, string> := map[];
      if contents.Some? {
        var tokens := Tokens(contents.value);
        for i := 0 to |tokens|
          invariant vars == Build(tokens[..i])
        {
          var line := tokens[i];
          var pos := FindFirst(line, '=');
          if pos.Some? {
            var key, value := line[..pos.value], line[pos.value + 1..];
            if key !in vars {
              vars := vars[key := value];
            }
          }
          assert tokens[..i + 1][..i] == tokens[..i];
        }
        assert tokens[..|tokens|] == tokens;
      }
      variables := vars;
    }

    /** The stored value, or the empty string for a key that is absent */
    function Lookup(key: string): (v: string)
      reads this
      ensures key in variables ==> v == variables[key]
      ensures key !in variables ==> v == ""
    {
      if key in variables then variables[key] else ""
    }
  }
}
