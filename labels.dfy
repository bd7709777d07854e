/**
 * The class-index encoding of example.py (lines 67-73): the distinct window
 * labels in sorted order, the `label_to_int` and `int_to_label` dictionaries,
 * the integer targets `y` and `NUM_CLASSES`.
 *
 * Python orders `str` values lexicographically by code point, a proper prefix
 * first; `StrLess` is that order and Dafny's `<` on `char` compares code points.
 */
module Labels {

  type Label = string

  /** Python's `a < b` on strings. */
  predicate StrLess(a: string, b: string)
  {
    if a == [] then b != []
    else if b == [] then false
    else if a[0] != b[0] then a[0] < b[0]
    else StrLess(a[1..], b[1..])
  }

  lemma {:induction false} StrLessIrreflexive(a: string)
    ensures !StrLess(a, a)
  {
    if a != [] {
      StrLessIrreflexive(a[1..]);
    }
  }

  lemma {:induction false} StrLessTransitive(a: string, b: string, c: string)
    requires StrLess(a, b) && StrLess(b, c)
    ensures StrLess(a, c)
  {
    if a != [] && b != [] && c != [] && a[0] == b[0] && b[0] == c[0] {
      StrLessTransitive(a[1..], b[1..], c[1..]);
    }
  }

  /** Any two different strings are ordered one way or the other. */
  lemma {:induction false} StrLessTotal(a: string, b: string)
    requires a != b
    ensures StrLess(a, b) || StrLess(b, a)
  {
    if a != [] && b != [] && a[0] == b[0] {
      assert a == [a[0]] + a[1..] && b == [b[0]] + b[1..];
      StrLessTotal(a[1..], b[1..]);
    }
  }

  /** Strictly increasing: sorted and without repetition. */
  ghost predicate StrictlySorted(s: seq<Label>)
  {
    forall i, j :: 0 <= i < j < |s| ==> StrLess(s[i], s[j])
  }

  /** Inserts `x` at its place in a strictly sorted list, unless it is already there. */
  function InsertSorted(x: Label, s: seq<Label>): (r: seq<Label>)
    requires StrictlySorted(s)
    ensures StrictlySorted(r)
    ensures forall l :: l in r <==> l == x || l in s
  {
    if s == [] then [x]
    else if x == s[0] then s
    else if StrLess(x, s[0]) then
      assert forall j :: 0 <= j < |s| ==> StrLess(x, s[j]) by {
        forall j | 0 <= j < |s| ensures StrLess(x, s[j]) {
          if j > 0 { StrLessTransitive(x, s[0], s[j]); }
        }
      }
      [x] + s
    else
      StrLessTotal(x, s[0]);
      var rest := InsertSorted(x, s[1..]);
      assert forall l :: l in rest ==> StrLess(s[0], l) by {
        forall l | l in rest ensures StrLess(s[0], l) {
          if l != x {
            var j :| 0 <= j < |s[1..]| && s[1..][j] == l;
            assert s[j + 1] == l;
          }
        }
      }
      var r := [s[0]] + rest;
      assert StrictlySorted(r) by {
        forall i, j | 0 <= i < j < |r| ensures StrLess(r[i], r[j]) {
          if i > 0 {
            assert r[i] == rest[i - 1] && r[j] == rest[j - 1];
          } else {
            assert r[j] in rest;
          }
        }
      }
      r
  }

  /** `sorted(list(set(y_strings)))` */
  function SortedLabels(ys: seq<Label>): (u: seq<Label>)
    ensures StrictlySorted(u)
    ensures forall l :: l in u <==> l in ys
  {
    if ys == [] then []
    else
      var u := InsertSorted(ys[|ys| - 1], SortedLabels(ys[..|ys| - 1]));
      assert forall l :: l in ys <==> l == ys[|ys| - 1] || l in ys[..|ys| - 1] by {
        assert ys == ys[..|ys| - 1] + [ys[|ys| - 1]];
      }
      u
  }

  /**
   * A set of strings has only one strictly sorted arrangement, so `SortedLabels`
   * is exactly Python's `sorted` of the set, whatever order it was built in.
   */
  lemma {:induction false} SortedIsUnique(a: seq<Label>, b: seq<Label>)
    requires StrictlySorted(a) && StrictlySorted(b)
    requires forall l :: l in a <==> l in b
    ensures a == b
  {
    if a != [] {
      assert a[0] in b;
    }
    if b != [] {
      assert b[0] in a;
    }
    if a != [] && b != [] {
      // The first element of each is the least of the common set.
      if a[0] != b[0] {
        assert a[0] in b && b[0] in a;
        var i :| 0 <= i < |b| && b[i] == a[0];
        var j :| 0 <= j < |a| && a[j] == b[0];
        assert i > 0 && j > 0;
        assert StrLess(b[0], a[0]);
        assert StrLess(a[0], b[0]);
        StrLessTransitive(a[0], b[0], a[0]);
        StrLessIrreflexive(a[0]);
      }
      forall l ensures l in a[1..] <==> l in b[1..] {
        if l in a[1..] {
          var k :| 1 <= k < |a| && a[k] == l;
          assert StrLess(a[0], l);
          StrLessIrreflexive(l);
          assert l in b;
          var m :| 0 <= m < |b| && b[m] == l;
          assert m != 0;
          assert b[m] in b[1..];
        }
        if l in b[1..] {
          var k :| 1 <= k < |b| && b[k] == l;
          assert StrLess(b[0], l);
          StrLessIrreflexive(l);
          assert l in a;
          var m :| 0 <= m < |a| && a[m] == l;
          assert m != 0;
          assert a[m] in a[1..];
        }
      }
      SortedIsUnique(a[1..], b[1..]);
      assert a == [a[0]] + a[1..] && b == [b[0]] + b[1..];
    }
  }

  lemma StrictlySortedDistinct(u: seq<Label>)
    requires StrictlySorted(u)
    ensures forall i, j :: 0 <= i < |u| && 0 <= j < |u| && i != j ==> u[i] != u[j]
  {
    forall i, j | 0 <= i < |u| && 0 <= j < |u| && i != j ensures u[i] != u[j] {
      if i < j { StrLessIrreflexive(u[i]); } else { StrLessIrreflexive(u[j]); }
    }
  }

  /** `{label: idx for idx, label in enumerate(unique_labels)}` */
  function LabelToInt(u: seq<Label>): (m: map<Label, int>)
    requires StrictlySorted(u)
  {
    StrictlySortedDistinct(u);
    map i | 0 <= i < |u| :: u[i] := i
  }

  /** `{idx: label for label, idx in label_to_int.items()}`; the indices of a dictionary from `LabelToInt` are distinct. */
  function IntToLabel(m: map<Label, int>): map<int, Label>
    requires forall a, b :: a in m && b in m && a != b ==> m[a] != m[b]
  {
    map l | l in m :: m[l] := l
  }

  /** `[label_to_int[label] for label in y_strings]` */
  function EncodeLabels(ys: seq<Label>, m: map<Label, int>): seq<int>
    requires forall j :: 0 <= j < |ys| ==> ys[j] in m
  {
    seq(|ys|, j requires 0 <= j < |ys| => m[ys[j]])
  }

  /**
   * `label_to_int` sends the i-th sorted label to i, so it maps the labels one to
   * one onto 0 .. NUM_CLASSES - 1, and `int_to_label` is its inverse in both directions.
   */
  lemma LabelIndexBijection(u: seq<Label>)
    requires StrictlySorted(u)
    ensures LabelToInt(u).Keys == set l | l in u
    ensures forall i :: 0 <= i < |u| ==> LabelToInt(u)[u[i]] == i
    ensures forall a, b :: a in LabelToInt(u) && b in LabelToInt(u) && a != b ==> LabelToInt(u)[a] != LabelToInt(u)[b]
    ensures forall i :: i in IntToLabel(LabelToInt(u)) <==> 0 <= i < |u|
    ensures forall i :: 0 <= i < |u| ==> IntToLabel(LabelToInt(u))[i] == u[i]
    ensures forall l :: l in u ==> IntToLabel(LabelToInt(u))[LabelToInt(u)[l]] == l
  {
    StrictlySortedDistinct(u);
    var m := LabelToInt(u);
    forall i | 0 <= i < |u| ensures u[i] in m && m[u[i]] == i {
    }
    forall l | l in m ensures l in u && 0 <= m[l] < |u| && u[m[l]] == l {
      var i :| 0 <= i < |u| && u[i] == l;
    }
    var inv := IntToLabel(m);
    forall i | 0 <= i < |u| ensures i in inv && inv[i] == u[i] {
      assert m[u[i]] == i;
    }
    forall i | i in inv ensures 0 <= i < |u| {
      var l :| l in m && m[l] == i;
    }
  }

  /** What lines 67-73 compute from the window labels. */
  datatype Classes = Classes(uniqueLabels: seq<Label>, labelToInt: map<Label, int>,
                             intToLabel: map<int, Label>, y: seq<int>, numClasses: nat)

  /** Lines 67-73 on the window labels `y_strings`. */
  function BuildClasses(yStrings: seq<Label>): Classes
  {
    var unique := SortedLabels(yStrings);
    var toInt := LabelToInt(unique);
    LabelIndexBijection(unique);
    assert forall j :: 0 <= j < |yStrings| ==> yStrings[j] in toInt by {
      forall j | 0 <= j < |yStrings| ensures yStrings[j] in toInt {
        assert yStrings[j] in unique;
      }
    }
    Classes(unique, toInt, IntToLabel(toInt), EncodeLabels(yStrings, toInt), |unique|)
  }

  /**
   * The class encoding of the window labels: there are as many targets as windows,
   * every target `y[j]` is the index of `y_strings[j]` in the sorted label list and
   * lies in [0, NUM_CLASSES), and `int_to_label` reads it back as that label.
   */
  lemma ClassTargets(yStrings: seq<Label>)
    ensures var c := BuildClasses(yStrings);
      c.uniqueLabels == SortedLabels(yStrings) && c.numClasses == |c.uniqueLabels| &&
      |c.y| == |yStrings| &&
      (forall j :: 0 <= j < |yStrings| ==>
         yStrings[j] in c.labelToInt && c.y[j] == c.labelToInt[yStrings[j]] &&
         0 <= c.y[j] < c.numClasses && c.uniqueLabels[c.y[j]] == yStrings[j] &&
         c.y[j] in c.intToLabel && c.intToLabel[c.y[j]] == yStrings[j]) &&
      (forall i :: i in c.intToLabel <==> 0 <= i < c.numClasses)
  {
    var c := BuildClasses(yStrings);
    var unique := c.uniqueLabels;
    LabelIndexBijection(unique);
    forall j | 0 <= j < |yStrings|
      ensures yStrings[j] in c.labelToInt && c.y[j] == c.labelToInt[yStrings[j]]
      ensures 0 <= c.y[j] < |unique| && unique[c.y[j]] == yStrings[j]
      ensures c.y[j] in c.intToLabel && c.intToLabel[c.y[j]] == yStrings[j]
    {
      assert yStrings[j] in unique;
      var i :| 0 <= i < |unique| && unique[i] == yStrings[j];
      assert c.y[j] == i;
    }
  }

  /** The worked order: upper case sorts before lower case, a prefix before its extensions. */
  lemma SortedLabelsExample()
    ensures SortedLabels(["sitting", "Walking", "sit", "sitting"]) == ["Walking", "sit", "sitting"]
  {
    var u := SortedLabels(["sitting", "Walking", "sit", "sitting"]);
    var expected := ["Walking", "sit", "sitting"];
    assert StrLess("Walking", "sit") && StrLess("sit", "sitting") && StrLess("Walking", "sitting");
    assert StrictlySorted(expected);
    SortedIsUnique(u, expected);
  }
}
