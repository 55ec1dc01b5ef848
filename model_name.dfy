/**
 * The `get_model_name` lambda of the benchmark driver: the model name shown
 * in the log is cut out of the model path with `std::string::find_first_of`
 * and `std::string::substr`, in unsigned `std::size_t` arithmetic that wraps
 * modulo 2^64 when a search returns `npos`.
 */
module ModelName {

  /** std::size_t on a 64-bit target. */
  const SIZE_MOD: int := 0x1_0000_0000_0000_0000
  type size_t = x: int | 0 <= x < SIZE_MOD

  /** std::string::npos, the largest size_t. */
  const NPOS: size_t := SIZE_MOD - 1

  /** Unsigned addition and subtraction, wrapping modulo 2^64. */
  function Add(a: size_t, b: size_t): size_t {
    if a + b < SIZE_MOD then a + b else a + b - SIZE_MOD
  }

  function Sub(a: size_t, b: size_t): size_t {
    if b <= a then a - b else a - b + SIZE_MOD
  }

  /** Both operations are arithmetic modulo 2^64. */
  lemma WrapIsModular(a: size_t, b: size_t)
    ensures Add(a, b) == (a + b) % SIZE_MOD
    ensures Sub(a, b) == (a - b) % SIZE_MOD
  {
  }

  /**
   * `s.find_first_of(chars, pos)`: the first index at or after `pos` whose
   * character is one of `chars`, or npos when there is none (in particular
   * whenever `pos` is not below the length). A std::string is always shorter
   * than npos.
   */
  function FindFirstOf(s: string, chars: set<char>, pos: size_t): (r: size_t)
    requires |s| < NPOS
    ensures r != NPOS ==> pos <= r < |s| && s[r] in chars
    ensures forall k :: pos <= k < |s| && k < r ==> s[k] !in chars
    decreases |s| - pos
  {
    if pos >= |s| then NPOS
    else if s[pos] in chars then pos
    else FindFirstOf(s, chars, pos + 1)
  }

  /** The search stops at the first matching character from `pos`. */
  lemma {:induction false} FindFirstOfAt(s: string, chars: set<char>, pos: size_t, r: nat)
    requires |s| < NPOS && pos <= r < |s| && s[r] in chars
    requires forall k :: pos <= k < r ==> s[k] !in chars
    ensures FindFirstOf(s, chars, pos) == r
    decreases r - pos
  {
    if pos < r {
      FindFirstOfAt(s, chars, pos + 1, r);
    }
  }

  /**
   * `s.substr(pos, n)`: at most `n` characters starting at `pos`. The
   * library throws std::out_of_range when `pos` is past the end, which is
   * why `pos <= |s|` is demanded.
   */
  function SubStr(s: string, pos: size_t, n: size_t): (r: string)
    requires pos <= |s|
    ensures r <= s[pos..]
    ensures |r| == if n < |s| - pos then n else |s| - pos
  {
    if n < |s| - pos then s[pos..pos + n] else s[pos..]
  }

  /** The lambda as written, including the wrap-around of `first + 1` etc. */
  function GetModelName(modelPath: string): string
    requires |modelPath| < NPOS
  {
    var first := FindFirstOf(modelPath, {'/'}, 0);
    var second := FindFirstOf(modelPath, {'/'}, Add(first, 1));
    var third := FindFirstOf(modelPath, {'/'}, Add(second, 1));
    SubStr(modelPath, Add(first, 1), Sub(Sub(third, first), 1))
  }

  /**
   * Reference definition: the indices of the '/' characters of `s` at or
   * after `pos`, in increasing order.
   */
  function SlashesFrom(s: string, pos: nat): (r: seq<nat>)
    ensures forall k :: 0 <= k < |r| ==> pos <= r[k] < |s| && s[r[k]] == '/'
    decreases |s| - pos
  {
    if pos >= |s| then []
    else if s[pos] == '/' then [pos] + SlashesFrom(s, pos + 1)
    else SlashesFrom(s, pos + 1)
  }

  function Slashes(s: string): seq<nat> { SlashesFrom(s, 0) }

  /** The slash indices are listed in increasing order. */
  lemma {:induction false} SlashesFromSorted(s: string, pos: nat)
    ensures forall k, l :: 0 <= k < l < |SlashesFrom(s, pos)| ==>
      SlashesFrom(s, pos)[k] < SlashesFrom(s, pos)[l]
    decreases |s| - pos
  {
    if pos < |s| {
      SlashesFromSorted(s, pos + 1);
    }
  }

  /** No slash at or after `pos` is missing from `SlashesFrom(s, pos)`. */
  lemma {:induction false} SlashesFromComplete(s: string, pos: nat, i: nat)
    requires pos <= i < |s| && s[i] == '/'
    ensures i in SlashesFrom(s, pos)
    decreases |s| - pos
  {
    if i != pos {
      SlashesFromComplete(s, pos + 1, i);
    }
  }

  /**
   * Searching for '/' from `pos` fails exactly when no slash follows, and
   * otherwise finds the first of the slashes from `pos`.
   */
  lemma {:induction false} FindSlash(s: string, pos: size_t)
    requires |s| < NPOS
    ensures FindFirstOf(s, {'/'}, pos) == NPOS ==> SlashesFrom(s, pos) == []
    ensures FindFirstOf(s, {'/'}, pos) != NPOS ==>
      SlashesFrom(s, pos) == [FindFirstOf(s, {'/'}, pos)] + SlashesFrom(s, FindFirstOf(s, {'/'}, pos) + 1)
    decreases |s| - pos
  {
    if pos < |s| && s[pos] != '/' {
      FindSlash(s, pos + 1);
      assert FindFirstOf(s, {'/'}, pos) == FindFirstOf(s, {'/'}, pos + 1);
      assert SlashesFrom(s, pos) == SlashesFrom(s, pos + 1);
    }
  }

  /** A search that finds a slash takes the head of the remaining slash list. */
  lemma FindSlashHead(s: string, pos: size_t)
    requires |s| < NPOS && SlashesFrom(s, pos) != []
    ensures FindFirstOf(s, {'/'}, pos) == SlashesFrom(s, pos)[0]
    ensures SlashesFrom(s, FindFirstOf(s, {'/'}, pos) + 1) == SlashesFrom(s, pos)[1..]
  {
    FindSlash(s, pos);
  }

  /** The lambda when the first search fails. */
  lemma NoHit(path: string)
    requires |path| < NPOS && FindFirstOf(path, {'/'}, 0) == NPOS
    ensures GetModelName(path) == path
  {
    assert Add(NPOS, 1) == 0;
    assert Sub(Sub(NPOS, NPOS), 1) == NPOS;
    assert SubStr(path, 0, NPOS) == path;
  }

  /**
   * The lambda when only the first search succeeds: the second wraps round
   * to index 0 and the third finds the first slash again.
   */
  lemma OneHit(path: string, a: nat)
    requires |path| < NPOS && a < |path|
    requires FindFirstOf(path, {'/'}, 0) == a
    requires FindFirstOf(path, {'/'}, a + 1) == NPOS
    ensures GetModelName(path) == path[a + 1..]
  {
    assert Add(a, 1) == a + 1;
    assert Add(NPOS, 1) == 0;
    assert Sub(Sub(a, a), 1) == NPOS;
    assert SubStr(path, a + 1, NPOS) == path[a + 1..];
  }

  /** The lambda when the first two searches succeed and the third fails. */
  lemma TwoHits(path: string, a: nat, b: nat)
    requires |path| < NPOS && a < b < |path|
    requires FindFirstOf(path, {'/'}, 0) == a
    requires FindFirstOf(path, {'/'}, a + 1) == b
    requires FindFirstOf(path, {'/'}, b + 1) == NPOS
    ensures GetModelName(path) == path[a + 1..]
  {
    assert Add(a, 1) == a + 1;
    assert Add(b, 1) == b + 1;
    assert Sub(Sub(NPOS, a), 1) == NPOS - a - 1;
    assert SubStr(path, a + 1, NPOS - a - 1) == path[a + 1..];
  }

  /** The lambda when the three searches succeed. */
  lemma ThreeHits(path: string, a: nat, b: nat, c: nat)
    requires |path| < NPOS && a < b < c < |path|
    requires FindFirstOf(path, {'/'}, 0) == a
    requires FindFirstOf(path, {'/'}, a + 1) == b
    requires FindFirstOf(path, {'/'}, b + 1) == c
    ensures GetModelName(path) == path[a + 1..c]
  {
    assert Add(a, 1) == a + 1;
    assert Add(b, 1) == b + 1;
    assert Sub(Sub(c, a), 1) == c - a - 1;
    assert SubStr(path, a + 1, c - a - 1) == path[a + 1..c];
  }

  /** With no slash, every search yields npos and `npos + 1` wraps to 0. */
  lemma ModelNameNoSlash(path: string)
    requires |path| < NPOS && Slashes(path) == []
    ensures GetModelName(path) == path
  {
    FindSlash(path, 0);
    NoHit(path);
  }

  /** With exactly one slash the rest of the path after it is returned. */
  lemma ModelNameOneSlash(path: string)
    requires |path| < NPOS && |Slashes(path)| == 1
    ensures GetModelName(path) == path[Slashes(path)[0] + 1..]
  {
    FindSlash(path, 0);
    var a := FindFirstOf(path, {'/'}, 0);
    FindSlash(path, a + 1);
    OneHit(path, a);
  }

  /** With exactly two slashes the rest of the path after the first is returned. */
  lemma ModelNameTwoSlashes(path: string)
    requires |path| < NPOS && |Slashes(path)| == 2
    ensures GetModelName(path) == path[Slashes(path)[0] + 1..]
  {
    FindSlash(path, 0);
    var a := FindFirstOf(path, {'/'}, 0);
    FindSlash(path, a + 1);
    var b := FindFirstOf(path, {'/'}, a + 1);
    FindSlash(path, b + 1);
    TwoHits(path, a, b);
  }

  /** The first three slashes are what the three searches find. */
  lemma FirstThreeSlashes(path: string)
    requires |path| < NPOS && |Slashes(path)| >= 3
    ensures Slashes(path)[0] < Slashes(path)[1] < Slashes(path)[2] < |path|
    ensures FindFirstOf(path, {'/'}, 0) == Slashes(path)[0]
    ensures FindFirstOf(path, {'/'}, Slashes(path)[0] + 1) == Slashes(path)[1]
    ensures FindFirstOf(path, {'/'}, Slashes(path)[1] + 1) == Slashes(path)[2]
  {
    var all := Slashes(path);
    FindSlashHead(path, 0);
    var a := all[0];
    assert SlashesFrom(path, a + 1) == all[1..];
    FindSlashHead(path, a + 1);
    var b := all[1];
    assert SlashesFrom(path, b + 1) == all[2..];
    FindSlashHead(path, b + 1);
  }

  /** With three slashes or more, substr takes the text up to the third. */
  lemma ModelNameThreeSlashes(path: string)
    requires |path| < NPOS && |Slashes(path)| >= 3
    ensures Slashes(path)[0] < Slashes(path)[2]
    ensures GetModelName(path) == path[Slashes(path)[0] + 1..Slashes(path)[2]]
  {
    var s := Slashes(path);
    FirstThreeSlashes(path);
    ThreeHits(path, s[0], s[1], s[2]);
  }

  /**
   * What the lambda returns, by the number of slashes in the path: the text
   * strictly between the first and the third slash when there are at least
   * three; because `npos + 1` wraps to 0, everything after the first slash
   * when there are one or two; and the whole path when there is none.
   */
  lemma ModelNameCases(path: string)
    requires |path| < NPOS
    ensures |Slashes(path)| == 0 ==> GetModelName(path) == path
    ensures 1 <= |Slashes(path)| <= 2 ==>
      GetModelName(path) == path[Slashes(path)[0] + 1..]
    ensures |Slashes(path)| >= 3 ==>
      Slashes(path)[0] < Slashes(path)[2] &&
      GetModelName(path) == path[Slashes(path)[0] + 1..Slashes(path)[2]]
  {
    if |Slashes(path)| == 0 {
      ModelNameNoSlash(path);
    } else if |Slashes(path)| == 1 {
      ModelNameOneSlash(path);
    } else if |Slashes(path)| == 2 {
      ModelNameTwoSlashes(path);
    } else {
      ModelNameThreeSlashes(path);
    }
  }

  /**
   * When the path starts with a slash and its next two slashes are at `b`
   * and `c`, the model name is the text between the leading slash and `c`.
   */
  lemma ModelNameOfSegments(path: string, b: nat, c: nat)
    requires |path| < NPOS && 0 < b < c < |path|
    requires path[0] == '/' && path[b] == '/' && path[c] == '/'
    requires forall k :: 0 < k < c && k != b ==> path[k] != '/'
    ensures GetModelName(path) == path[1..c]
  {
    FindFirstOfAt(path, {'/'}, 0, 0);
    FindFirstOfAt(path, {'/'}, 1, b);
    FindFirstOfAt(path, {'/'}, b + 1, c);
    ThreeHits(path, 0, b, c);
  }

  /**
   * The model path of the hardcoded parameter table starts with
   * "/home/danqing/", so its model name is "home/danqing".
   */
  lemma HomeDirModelName(path: string)
    requires |path| < NPOS && |path| >= 14 && path[..14] == "/home/danqing/"
    ensures GetModelName(path) == "home/danqing"
  {
    HomeDirSlashes(path);
    ModelNameOfSegments(path, 5, 13);
  }

  /** Where the slashes of the "/home/danqing/" prefix are. */
  lemma HomeDirSlashes(path: string)
    requires |path| >= 14 && path[..14] == "/home/danqing/"
    ensures path[0] == '/' && path[5] == '/' && path[13] == '/'
    ensures forall k :: 0 < k < 13 && k != 5 ==> path[k] != '/'
    ensures path[1..13] == "home/danqing"
  {
    var prefix := path[..14];
    assert forall k :: 0 <= k < 14 ==> path[k] == prefix[k];
    assert path[1..13] == prefix[1..13];
  }
}
