/**
 * Command-line handling in Program.cs: the argument list is a List<string> that
 * ParseArgumentValue searches and shrinks in place, and Main tests flags on it with
 * List.Contains.
 */
module Arguments {
  import opened Wrappers

  /**
   * `s` begins with `prefix`, character by character. String.StartsWith(string) in .NET compares
   * with the rules of the current culture instead; the model takes the ordinal reading.
   */
  predicate StartsWith(s: string, prefix: string) {
    |prefix| <= |s| && s[..|prefix|] == prefix
  }

  /** The position of the first argument that starts with `prefix`, if there is one. */
  function FirstWithPrefix(args: seq<string>, prefix: string): (r: Option<nat>)
    ensures r.Some? ==> r.value < |args| && StartsWith(args[r.value], prefix)
    ensures forall i | 0 <= i < |args| && (r.None? || i < r.value) :: !StartsWith(args[i], prefix)
  {
    if args == [] then None
    else if StartsWith(args[0], prefix) then Some(0)
    else match FirstWithPrefix(args[1..], prefix)
      case None => None
      case Some(k) => Some(k + 1)
  }

  /**
   * What ParseArgumentValue returns and what it leaves in the list: the text after the
   * prefix of the first matching argument, with that argument removed, or the default
   * and the list as it was.
   */
  function Extracted(args: seq<string>, prefix: string, default: Option<string>): (r: (Option<string>, seq<string>))
    ensures r.1 == args <==> forall i | 0 <= i < |args| :: !StartsWith(args[i], prefix)
    ensures r.1 == args ==> r.0 == default
    ensures r.1 != args ==> r.0.Some? && |r.1| + 1 == |args|
  {
    match FirstWithPrefix(args, prefix)
    case None => (default, args)
    case Some(k) => (Some(args[k][|prefix|..]), args[..k] + args[k + 1..])
  }

  /** With a matching argument: its suffix is returned and exactly that one argument leaves the list. */
  lemma ExtractedMatch(args: seq<string>, prefix: string, default: Option<string>, k: nat)
    requires k < |args| && StartsWith(args[k], prefix)
    requires forall i | 0 <= i < k :: !StartsWith(args[i], prefix)
    ensures var (value, rest) := Extracted(args, prefix, default);
      && value.Some? && args[k] == prefix + value.value
      && |rest| == |args| - 1
      && rest[..k] == args[..k] && rest[k..] == args[k + 1..]
      && multiset(rest) + multiset{args[k]} == multiset(args)
  {
    var r := FirstWithPrefix(args, prefix);
    assert r == Some(k);
    var rest := args[..k] + args[k + 1..];
    assert args == args[..k] + [args[k]] + args[k + 1..];
    assert multiset(args) == multiset(args[..k]) + multiset{args[k]} + multiset(args[k + 1..]);
    assert args[k] == prefix + args[k][|prefix|..];
    assert rest[..k] == args[..k];
    assert rest[k..] == args[k + 1..];
  }

  /** Without a matching argument: the default comes back and the list is untouched. */
  lemma ExtractedNoMatch(args: seq<string>, prefix: string, default: Option<string>)
    requires forall i | 0 <= i < |args| :: !StartsWith(args[i], prefix)
    ensures Extracted(args, prefix, default) == (default, args)
  {
  }

  /** An argument without the prefix at the head of the list does not change what the search finds. */
  lemma ExtractedPastHead(args: seq<string>, prefix: string, default: Option<string>)
    requires args != [] && !StartsWith(args[0], prefix)
    ensures Extracted(args, prefix, default).0 == Extracted(args[1..], prefix, default).0
  {
    match FirstWithPrefix(args[1..], prefix) {
      case None =>
      case Some(j) => assert args[1..][j] == args[j + 1];
    }
  }

  /** Removing an argument that lacks the prefix does not change what the search finds. */
  lemma {:induction false} RemovalKeepsValue(args: seq<string>, k: nat, prefix: string, default: Option<string>)
    requires k < |args| && !StartsWith(args[k], prefix)
    ensures Extracted(args[..k] + args[k + 1..], prefix, default).0 == Extracted(args, prefix, default).0
    decreases k
  {
    var rest := args[..k] + args[k + 1..];
    if k == 0 {
      assert rest == args[1..];
      ExtractedPastHead(args, prefix, default);
    } else if StartsWith(args[0], prefix) {
      assert rest[0] == args[0];
    } else {
      var tail := args[1..];
      assert rest[0] == args[0] && rest[1..] == tail[..k - 1] + tail[k..];
      RemovalKeepsValue(tail, k - 1, prefix, default);
      ExtractedPastHead(args, prefix, default);
      ExtractedPastHead(rest, prefix, default);
    }
  }

  /**
   * Taking one option out of the list does not change what a later search for a different
   * option finds, provided no argument starts with both prefixes; so the order of Main's
   * ParseArgumentValue calls does not matter.
   */
  lemma ExtractionsDoNotInterfere(args: seq<string>, first: string, second: string, d1: Option<string>, d2: Option<string>)
    requires forall i | 0 <= i < |args| :: !(StartsWith(args[i], first) && StartsWith(args[i], second))
    ensures Extracted(Extracted(args, first, d1).1, second, d2).0 == Extracted(args, second, d2).0
  {
    match FirstWithPrefix(args, first) {
      case None =>
      case Some(k) => RemovalKeepsValue(args, k, second, d2);
    }
  }

  /** Two strings that differ at some position both reach: no string starts with both. */
  predicate Apart(p: string, q: string) {
    exists j | 0 <= j < |p| && j < |q| :: p[j] != q[j]
  }

  /** Reading an option whose prefix is apart from `first` leaves its value as it was. */
  lemma ReadPast(args: seq<string>, first: string, second: string)
    requires Apart(first, second)
    ensures Extracted(Extracted(args, first, None).1, second, None).0 == Extracted(args, second, None).0
  {
    var j :| 0 <= j < |first| && j < |second| && first[j] != second[j];
    forall i | 0 <= i < |args| ensures !(StartsWith(args[i], first) && StartsWith(args[i], second)) {
      assert StartsWith(args[i], first) ==> args[i][j] == first[j];
    }
    ExtractionsDoNotInterfere(args, first, second, None, None);
  }

  /** A flag apart from the prefix is in the list after the read exactly when it was before. */
  lemma FlagPast(args: seq<string>, prefix: string, flag: string)
    requires Apart(prefix, flag)
    ensures flag in Extracted(args, prefix, None).1 <==> flag in args
  {
    match FirstWithPrefix(args, prefix) {
      case None =>
      case Some(k) =>
        ExtractedMatch(args, prefix, None, k);
        var rest := Extracted(args, prefix, None).1;
        var j :| 0 <= j < |prefix| && j < |flag| && prefix[j] != flag[j];
        assert flag != args[k] by {
          assert args[k][j] == prefix[j];
        }
        assert flag in multiset(args) <==> flag in multiset(rest);
    }
  }

  /**
   * A run of ParseArgumentValue calls with no default, one per prefix in order, each on the list
   * the previous one left: the values found, and the list at the end.
   */
  function ReadInTurn(args: seq<string>, prefixes: seq<string>): (r: (seq<Option<string>>, seq<string>))
    ensures |r.0| == |prefixes|
    ensures |args| - |prefixes| <= |r.1| <= |args|
    decreases |prefixes|
  {
    if prefixes == [] then ([], args)
    else
      var (value, rest) := Extracted(args, prefixes[0], None);
      var (values, last) := ReadInTurn(rest, prefixes[1..]);
      ([value] + values, last)
  }

  /** When the prefix read `k`-th is apart from every earlier one, it finds what it would find on the original list. */
  lemma {:induction false} InTurnAsAlone(args: seq<string>, prefixes: seq<string>, k: nat)
    requires k < |prefixes| && forall i | 0 <= i < k :: Apart(prefixes[i], prefixes[k])
    ensures ReadInTurn(args, prefixes).0[k] == Extracted(args, prefixes[k], None).0
    decreases k
  {
    if k > 0 {
      var rest := Extracted(args, prefixes[0], None).1;
      var tail := prefixes[1..];
      assert forall i | 0 <= i < k - 1 :: tail[i] == prefixes[i + 1];
      InTurnAsAlone(rest, tail, k - 1);
      ReadPast(args, prefixes[0], prefixes[k]);
    }
  }

  /** A prefix apart from all those read before it finds on the remaining list what it would find on the original. */
  lemma {:induction false} InTurnKeeps(args: seq<string>, prefixes: seq<string>, p: string)
    requires forall i | 0 <= i < |prefixes| :: Apart(prefixes[i], p)
    ensures Extracted(ReadInTurn(args, prefixes).1, p, None).0 == Extracted(args, p, None).0
    decreases |prefixes|
  {
    if prefixes != [] {
      var rest := Extracted(args, prefixes[0], None).1;
      var tail := prefixes[1..];
      assert forall i | 0 <= i < |tail| :: tail[i] == prefixes[i + 1];
      InTurnKeeps(rest, tail, p);
      ReadPast(args, prefixes[0], p);
    }
  }

  /** A flag apart from every prefix read is in the remaining list exactly when it was in the original. */
  lemma {:induction false} InTurnKeepsFlag(args: seq<string>, prefixes: seq<string>, flag: string)
    requires forall i | 0 <= i < |prefixes| :: Apart(prefixes[i], flag)
    ensures flag in ReadInTurn(args, prefixes).1 <==> flag in args
    decreases |prefixes|
  {
    if prefixes != [] {
      var rest := Extracted(args, prefixes[0], None).1;
      var tail := prefixes[1..];
      assert forall i | 0 <= i < |tail| :: tail[i] == prefixes[i + 1];
      InTurnKeepsFlag(rest, tail, flag);
      FlagPast(args, prefixes[0], flag);
    }
  }

  /** The argument list that Main builds from its command line and then consumes. */
  class ArgumentList {
    var items: seq<string>

    constructor (args: seq<string>)
      ensures items == args
    {
      items := args;
    }

    /** List.Contains: an exact match, as used for the `-fromintermediate` and `-cleanoutput` flags. */
    function Contains(flag: string): (found: bool)
      reads this
      ensures found <==> exists i | 0 <= i < |items| :: items[i] == flag
    {
      flag in items
    }

    /** ParseArgumentValue: scan for the first argument with the prefix, remove it and return its suffix. */
    method ParseArgumentValue(prefix: string, default: Option<string>) returns (value: Option<string>)
      modifies this
      ensures (value, items) == Extracted(old(items), prefix, default)
    {
      var idx := 0;
      while idx < |items|
        invariant 0 <= idx <= |items|
        invariant items == old(items)
        invariant forall i | 0 <= i < idx :: !StartsWith(items[i], prefix)
      {
        if StartsWith(items[idx], prefix) {
          value := Some(items[idx][|prefix|..]);
          items := items[..idx] + items[idx + 1..];
          return;
        }
        idx := idx + 1;
      }
      value := default;
    }
  }
}
