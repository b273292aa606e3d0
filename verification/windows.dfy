/**
 The row of windows of a building, each either lit or dark. An agent entering
 lights the lowest dark window; an agent leaving switches off the highest lit
 one. Starting from a dark row, the lit windows therefore always form a prefix
 of the row, and the row is determined by how many windows are lit.
 */
module Windows {

  /** Every lit window has only lit windows below it. */
  ghost predicate LitPrefix(w: seq<bool>) {
    forall i, j :: 0 <= i < j < |w| && w[j] ==> w[i]
  }

  /** The row of `n` windows whose lowest `k` are lit. */
  function Lights(n: nat, k: nat): (w: seq<bool>)
    ensures |w| == n
    ensures forall i :: 0 <= i < n ==> (w[i] <==> i < k)
  {
    seq(n, i => i < k)
  }

  /** Number of lit windows. */
  function LitCount(w: seq<bool>): (n: nat)
    ensures n <= |w|
  {
    if |w| == 0 then 0 else LitCount(w[..|w| - 1]) + (if w[|w| - 1] then 1 else 0)
  }

  /** Scan upward from `from` for a dark window; `|w|` when every window from there on is lit. */
  function FirstUnlit(w: seq<bool>, from: nat): (k: nat)
    requires from <= |w|
    ensures from <= k <= |w|
    ensures k < |w| ==> !w[k]
    ensures forall i :: from <= i < k ==> w[i]
    decreases |w| - from
  {
    if from == |w| || !w[from] then from else FirstUnlit(w, from + 1)
  }

  /** Scan downward from `below - 1` for a lit window; `None`-like value `-1` when there is none. */
  function LastLit(w: seq<bool>, below: nat): (k: int)
    requires below <= |w|
    ensures -1 <= k < below
    ensures 0 <= k ==> w[k]
    ensures forall i :: k < i < below ==> !w[i]
  {
    if below == 0 then -1
    else if w[below - 1] then below - 1
    else LastLit(w, below - 1)
  }

  /** An agent enters: the lowest dark window is lit; nothing changes when all are lit. */
  function OnAgentEnter(w: seq<bool>): (r: seq<bool>)
    ensures |r| == |w|
    ensures (forall i :: 0 <= i < |w| ==> w[i]) ==> r == w
    ensures forall k :: 0 <= k < |w| && !w[k] && (forall i :: 0 <= i < k ==> w[i]) ==> r == w[k := true]
  {
    var k := FirstUnlit(w, 0);
    if k < |w| then w[k := true] else w
  }

  /** An agent leaves: the highest lit window is switched off; nothing changes when all are dark. */
  function OnAgentLeave(w: seq<bool>): (r: seq<bool>)
    ensures |r| == |w|
    ensures (forall i :: 0 <= i < |w| ==> !w[i]) ==> r == w
    ensures forall k :: 0 <= k < |w| && w[k] && (forall i :: k < i < |w| ==> !w[i]) ==> r == w[k := false]
  {
    var k := LastLit(w, |w|);
    if 0 <= k then w[k := false] else w
  }

  /** A row whose lit windows form a prefix is the row of its lowest `FirstUnlit` windows lit. */
  lemma PrefixIsLights(w: seq<bool>)
    requires LitPrefix(w)
    ensures w == Lights(|w|, FirstUnlit(w, 0))
  {
    var k := FirstUnlit(w, 0);
    forall i | 0 <= i < |w|
      ensures w[i] == (i < k)
    {
      if k < i {
        assert k < |w| && !w[k];
      }
    }
  }

  /** Rows of the prefix shape are prefix-shaped. */
  lemma LightsArePrefix(n: nat, k: nat)
    ensures LitPrefix(Lights(n, k))
  {
  }

  /** The row with its lowest `k` windows lit has `k` lit windows. */
  lemma {:induction false} LitCountLights(n: nat, k: nat)
    requires k <= n
    ensures LitCount(Lights(n, k)) == k
  {
    if n > 0 {
      var w := Lights(n, k);
      assert w[..n - 1] == Lights(n - 1, if k == n then n - 1 else k);
      LitCountLights(n - 1, if k == n then n - 1 else k);
    }
  }

  /** On a prefix-shaped row, entering lights one more window unless all are lit. */
  lemma EnterLights(n: nat, k: nat)
    requires k <= n
    ensures OnAgentEnter(Lights(n, k)) == Lights(n, if k < n then k + 1 else n)
  {
    var w := Lights(n, k);
    if k < n {
      assert !w[k] && forall i :: 0 <= i < k ==> w[i];
    }
  }

  /** On a prefix-shaped row, leaving switches off one window unless all are dark. */
  lemma LeaveLights(n: nat, k: nat)
    requires k <= n
    ensures OnAgentLeave(Lights(n, k)) == Lights(n, if k > 0 then k - 1 else 0)
  {
    var w := Lights(n, k);
    if k > 0 {
      assert w[k - 1] && forall i :: k - 1 < i < n ==> !w[i];
    }
  }

  /** Entering keeps the lit windows a prefix and adds exactly one lit window when one was dark. */
  lemma EnterKeepsPrefix(w: seq<bool>)
    requires LitPrefix(w)
    ensures LitPrefix(OnAgentEnter(w))
    ensures LitCount(OnAgentEnter(w)) == if LitCount(w) < |w| then LitCount(w) + 1 else |w|
  {
    var k := FirstUnlit(w, 0);
    PrefixIsLights(w);
    EnterLights(|w|, k);
    LitCountLights(|w|, k);
    LitCountLights(|w|, if k < |w| then k + 1 else |w|);
  }

  /** Leaving keeps the lit windows a prefix and removes exactly one lit window when one was lit. */
  lemma LeaveKeepsPrefix(w: seq<bool>)
    requires LitPrefix(w)
    ensures LitPrefix(OnAgentLeave(w))
    ensures LitCount(OnAgentLeave(w)) == if LitCount(w) > 0 then LitCount(w) - 1 else 0
  {
    var k := FirstUnlit(w, 0);
    PrefixIsLights(w);
    LeaveLights(|w|, k);
    LitCountLights(|w|, k);
    LitCountLights(|w|, if k > 0 then k - 1 else 0);
  }

  /** On a prefix-shaped row with a dark window, a leave undoes an enter. */
  lemma LeaveUndoesEnter(w: seq<bool>)
    requires LitPrefix(w)
    requires exists i :: 0 <= i < |w| && !w[i]
    ensures OnAgentLeave(OnAgentEnter(w)) == w
  {
    var k := FirstUnlit(w, 0);
    PrefixIsLights(w);
    EnterLights(|w|, k);
    LeaveLights(|w|, k + 1);
  }

  /** On a prefix-shaped row with a lit window, an enter undoes a leave. */
  lemma EnterUndoesLeave(w: seq<bool>)
    requires LitPrefix(w)
    requires exists i :: 0 <= i < |w| && w[i]
    ensures OnAgentEnter(OnAgentLeave(w)) == w
  {
    var k := FirstUnlit(w, 0);
    PrefixIsLights(w);
    LeaveLights(|w|, k);
    EnterLights(|w|, k - 1);
  }
}
