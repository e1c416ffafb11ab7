/**
  The `--vars key=value,key2=value2` option of the Python command line
  (tldrpp/cli.py, the same code in the `render` and `exec` commands): the
  option text becomes the variable map handed to the application.
 */
module Cli {
  import opened Base
  import opened Text

  /** A piece with `=` split at its first `=`, both sides stripped; nothing without `=`. */
  function PairOf(piece: string): Option<(string, string)>
  {
    if '=' in piece then
      var i := IndexOf(piece, '=');
      Some((Trim(piece[..i]), Trim(piece[i + 1..])))
    else None
  }

  /** The map after the pieces in order, a later pair overwriting an earlier key. */
  function VarsOf(pieces: seq<string>): map<string, string>
    decreases |pieces|
  {
    if pieces == [] then map[]
    else
      var n := |pieces| - 1;
      var m := VarsOf(pieces[..n]);
      match PairOf(pieces[n])
      case None => m
      case Some(kv) => m[kv.0 := kv.1]
  }

  /** The variables an absent or empty option, or an option text, gives. */
  function Variables(vars: Option<string>): map<string, string>
  {
    if vars.None? || vars.value == [] then map[] else VarsOf(Split(vars.value, ','))
  }

  /** The loop over the comma-separated pieces. */
  method ParseVars(vars: Option<string>) returns (variables: map<string, string>)
    ensures variables == Variables(vars)
  {
    variables := map[];
    if vars.None? || vars.value == [] {
      return;
    }
    var pieces := Split(vars.value, ',');
    var i := 0;
    while i < |pieces|
      invariant 0 <= i <= |pieces|
      invariant variables == VarsOf(pieces[..i])
    {
      assert pieces[..i + 1][..i] == pieces[..i];
      var pair := pieces[i];
      if '=' in pair {
        var at := IndexOf(pair, '=');
        var key, value := pair[..at], pair[at + 1..];
        variables := variables[Trim(key) := Trim(value)];
      }
      i := i + 1;
    }
    assert pieces[..|pieces|] == pieces;
  }

  // ---------------------------------------------------------------------------
  // Properties
  // ---------------------------------------------------------------------------

  /** Stripping only removes characters. */
  lemma TrimKeeps(s: string, c: char)
    requires c in Trim(s)
    ensures c in s
  {
    TrimLeftSuffix(s);
    var l := TrimLeft(s);
    TrimRightPrefix(l);
    assert c in l;
  }

  /** What a key or a value of the map can be: stripped and free of commas. */
  predicate Clean(s: string)
  {
    Trim(s) == s && ',' !in s
  }

  lemma PairOfClean(piece: string)
    requires ',' !in piece && PairOf(piece).Some?
    ensures Clean(PairOf(piece).value.0) && Clean(PairOf(piece).value.1)
    ensures '=' !in PairOf(piece).value.0
  {
    var i := IndexOf(piece, '=');
    TrimIdempotent(piece[..i]);
    TrimIdempotent(piece[i + 1..]);
    if ',' in Trim(piece[..i]) {
      TrimKeeps(piece[..i], ',');
    }
    if ',' in Trim(piece[i + 1..]) {
      TrimKeeps(piece[i + 1..], ',');
    }
    if '=' in Trim(piece[..i]) {
      TrimKeeps(piece[..i], '=');
    }
  }

  lemma {:induction false} VarsOfClean(pieces: seq<string>)
    requires forall k :: 0 <= k < |pieces| ==> ',' !in pieces[k]
    ensures forall key | key in VarsOf(pieces) :: Clean(key) && '=' !in key && Clean(VarsOf(pieces)[key])
    decreases |pieces|
  {
    if pieces != [] {
      var n := |pieces| - 1;
      VarsOfClean(pieces[..n]);
      if PairOf(pieces[n]).Some? {
        PairOfClean(pieces[n]);
      }
    }
  }

  /**
    Keys and values come out stripped and without commas, and keys without
    `=`: a value may hold further `=` signs, a key never does.
   */
  lemma VariablesClean(vars: Option<string>)
    ensures forall key | key in Variables(vars) :: Clean(key) && '=' !in key && Clean(Variables(vars)[key])
  {
    if vars.Some? && vars.value != [] {
      SplitNoSeparator(vars.value, ',');
      VarsOfClean(Split(vars.value, ','));
    }
  }

  /** A key is set exactly when some piece with `=` names it. */
  lemma {:induction false} VarsOfKeys(pieces: seq<string>, key: string)
    ensures key in VarsOf(pieces) <==> exists k :: 0 <= k < |pieces| && PairOf(pieces[k]).Some? && PairOf(pieces[k]).value.0 == key
    decreases |pieces|
  {
    if pieces != [] {
      var n := |pieces| - 1;
      VarsOfKeys(pieces[..n], key);
      assert forall k :: 0 <= k < n ==> pieces[..n][k] == pieces[k];
    }
  }

  /** The value of a key is the one from the last piece that names it. */
  lemma {:induction false} VarsOfLastWins(pieces: seq<string>, k: nat)
    requires k < |pieces| && PairOf(pieces[k]).Some?
    requires forall j :: k < j < |pieces| && PairOf(pieces[j]).Some? ==> PairOf(pieces[j]).value.0 != PairOf(pieces[k]).value.0
    ensures PairOf(pieces[k]).value.0 in VarsOf(pieces)
    ensures VarsOf(pieces)[PairOf(pieces[k]).value.0] == PairOf(pieces[k]).value.1
    decreases |pieces|
  {
    var n := |pieces| - 1;
    if k < n {
      assert forall j :: 0 <= j < n ==> pieces[..n][j] == pieces[j];
      VarsOfLastWins(pieces[..n], k);
    }
  }

  /** Pieces without `=` are ignored. */
  lemma {:induction false} VarsOfSkips(pieces: seq<string>, p: string)
    requires '=' !in p
    ensures VarsOf(pieces + [p]) == VarsOf(pieces)
  {
    assert (pieces + [p])[..|pieces|] == pieces;
  }

  /** A stripped key without `=` and a stripped value give back the pair. */
  lemma PairOfText(key: string, value: string)
    requires '=' !in key && Trim(key) == key && Trim(value) == value
    ensures PairOf(key + "=" + value) == Some((key, value))
  {
    var s := key + "=" + value;
    assert s[|key|] == '=' && s[..|key|] == key;
    IndexOfUnique(s, '=', |key|);
    assert s[|key| + 1..] == value;
  }

  /** The option text for a list of pairs. */
  function PairText(kv: (string, string)): string
  {
    kv.0 + "=" + kv.1
  }

  function PairsText(pairs: seq<(string, string)>): string
  {
    Join(seq(|pairs|, i requires 0 <= i < |pairs| => PairText(pairs[i])), ',')
  }

  /** The map a list of pairs should give, later pairs overwriting earlier ones. */
  function MapOf(pairs: seq<(string, string)>): map<string, string>
    decreases |pairs|
  {
    if pairs == [] then map[] else MapOf(pairs[..|pairs| - 1])[pairs[|pairs| - 1].0 := pairs[|pairs| - 1].1]
  }

  predicate GoodPair(kv: (string, string))
  {
    Clean(kv.0) && '=' !in kv.0 && Clean(kv.1)
  }

  lemma {:induction false} VarsOfPairs(pieces: seq<string>, pairs: seq<(string, string)>)
    requires |pieces| == |pairs|
    requires forall i :: 0 <= i < |pairs| ==> PairOf(pieces[i]) == Some(pairs[i])
    ensures VarsOf(pieces) == MapOf(pairs)
    decreases |pairs|
  {
    if pairs != [] {
      var n := |pairs| - 1;
      VarsOfPairs(pieces[..n], pairs[..n]);
    }
  }

  /**
    Writing clean pairs as `key=value` joined by commas and parsing the text
    again gives the map of the pairs.
   */
  lemma VariablesRoundTrip(pairs: seq<(string, string)>)
    requires |pairs| > 0 && forall i :: 0 <= i < |pairs| ==> GoodPair(pairs[i])
    ensures Variables(Some(PairsText(pairs))) == MapOf(pairs)
  {
    var pieces := seq(|pairs|, i requires 0 <= i < |pairs| => PairText(pairs[i]));
    forall k | 0 <= k < |pieces| ensures ',' !in pieces[k] && PairOf(pieces[k]) == Some(pairs[k]) {
      PairOfText(pairs[k].0, pairs[k].1);
    }
    JoinSplit(pieces, ',');
    VarsOfPairs(pieces, pairs);
    assert |PairsText(pairs)| >= |pieces[0]| > 0;
  }
}
