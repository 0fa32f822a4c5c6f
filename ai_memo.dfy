/**
 * The pattern `clean_memo` (ai/ai.py) builds from the board state to decide
 * which entries of the search memo to keep, and what Python's `re.match`
 * does with it.
 *
 * The pattern is `'.' * L`, then the board state from position `L` on with
 * every '1' turned into '.', then '$'. The state is made of digits, so its
 * other characters stand for themselves. `re.match` anchors the pattern at
 * the start of the key; '.' matches any character but a newline, and '$'
 * matches at the end of the key or just before a newline that ends it.
 */
module AiMemo {
  /** One position of the pattern: '.' or a character that must appear as it is. */
  datatype Atom = AnyChar | Lit(ch: char)

  predicate AtomMatches(a: Atom, ch: char)
  {
    match a
    case AnyChar => ch != '\n'
    case Lit(x) => ch == x
  }

  /** Python's `s[L:]`: empty when `L` is past the end. */
  function Suffix(s: string, L: nat): string
  {
    if L <= |s| then s[L..] else ""
  }

  /** The pattern of `clean_memo` for the board state `state`, before its '$'. */
  function MemoPattern(state: string, L: nat): (p: seq<Atom>)
    ensures |p| == L + |Suffix(state, L)|
  {
    var k := Suffix(state, L);
    seq(L, _ => AnyChar)
      + seq(|k|, i requires 0 <= i < |k| => if k[i] == '1' then AnyChar else Lit(k[i]))
  }

  /** `re.match(pattern + '$', q)` succeeds. */
  predicate PatternMatches(p: seq<Atom>, q: string)
  {
    && (|q| == |p| || (|q| == |p| + 1 && q[|p|] == '\n'))
    && (forall i :: 0 <= i < |p| ==> AtomMatches(p[i], q[i]))
  }

  /**
   * For keys without a newline, `clean_memo` keeps exactly the keys as
   * long as the pattern that agree with the board state at every position
   * from `L` on where the state does not hold a '1'.
   */
  lemma MemoKeepsExactly(state: string, L: nat, q: string)
    requires '\n' !in q
    ensures var k := Suffix(state, L);
      PatternMatches(MemoPattern(state, L), q)
      <==> |q| == L + |k| && (forall i :: 0 <= i < |k| && k[i] != '1' ==> q[L + i] == k[i])
  {
    var k := Suffix(state, L);
    var p := MemoPattern(state, L);
    if |q| == L + |k| && (forall i :: 0 <= i < |k| && k[i] != '1' ==> q[L + i] == k[i]) {
      forall i | 0 <= i < |p|
        ensures AtomMatches(p[i], q[i])
      {
        assert q[i] in q;
        if i >= L {
          assert p[i] == if k[i - L] == '1' then AnyChar else Lit(k[i - L]);
        }
      }
    }
    if PatternMatches(p, q) {
      assert |q| == |p|;
      forall i | 0 <= i < |k| && k[i] != '1'
        ensures q[L + i] == k[i]
      {
        assert AtomMatches(p[L + i], q[L + i]);
      }
    }
  }

  /**
   * The memo key `think` gives the current board at a one-digit search
   * level, the level digit followed by the state without its first
   * character, is always kept.
   */
  lemma CurrentKeyKept(state: string, L: nat, level: char)
    requires 1 <= L <= |state| && '\n' !in state && level != '\n'
    ensures PatternMatches(MemoPattern(state, L), [level] + state[1..])
  {
    var q := [level] + state[1..];
    assert forall i :: 1 <= i < |q| ==> q[i] == state[i];
    assert '\n' !in q by {
      forall i | 0 <= i < |q|
        ensures q[i] != '\n'
      {
        if i > 0 {
          assert state[i] in state;
        }
      }
    }
    MemoKeepsExactly(state, L, q);
  }

  /** The entries of `memo` whose keys the pattern matches, unchanged. */
  function KeptEntries<V>(memo: map<string, V>, p: seq<Atom>): (r: map<string, V>)
    ensures forall q :: q in r <==> q in memo && PatternMatches(p, q)
    ensures forall q :: q in r ==> r[q] == memo[q]
  {
    map q | q in memo && PatternMatches(p, q) :: memo[q]
  }

  /**
   * What `clean_memo` keeps, in terms of the board state: an entry whose
   * key holds no newline survives, unchanged, exactly when the key is as
   * long as the pattern and agrees with the state at every position from
   * `L` on where the state does not hold a '1'.
   */
  lemma KeptKeys<V>(memo: map<string, V>, state: string, L: nat, q: string)
    requires '\n' !in q
    ensures var k := Suffix(state, L);
      var kept := KeptEntries(memo, MemoPattern(state, L));
      && (q in kept <==> q in memo && |q| == L + |k| && (forall i :: 0 <= i < |k| && k[i] != '1' ==> q[L + i] == k[i]))
      && (q in kept ==> kept[q] == memo[q])
  {
    MemoKeepsExactly(state, L, q);
  }
}
