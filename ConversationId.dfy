/**
 * Conversation identifiers ("inboxes"), built by `createConversationID` in
 * static/js/app/app.js: the participants' user ids are sorted, joined with
 * underscores and tagged `d_` for a direct (two-party) conversation or `g_`
 * for a group conversation. Fewer than two ids is an error.
 */
module ConversationId {
  import opened Wrappers
  import opened Lexicographic

  /** The `Error('Invalid arguments')` thrown for fewer than two ids. */
  datatype IdError = InvalidArguments

  /** No id contains the separator `_` used to join them. */
  predicate NoSeparator(ids: seq<string>)
  {
    forall i :: 0 <= i < |ids| ==> '_' !in ids[i]
  }

  /** `Array.prototype.join('_')` on an array of strings. */
  function Join(ids: seq<string>): (r: string)
  {
    if |ids| == 0 then ""
    else if |ids| == 1 then ids[0]
    else ids[0] + "_" + Join(ids[1..])
  }

  /** The identifier of the conversation among the users `ids`, or the error thrown. */
  function CreateConversationId(ids: seq<string>): (r: Result<string, IdError>)
    ensures r.Failure? <==> |ids| < 2
    ensures r.Success? ==> |r.value| >= 2 && r.value[1] == '_'
    ensures r.Success? ==> (r.value[0] == 'd' <==> |ids| == 2)
    ensures r.Success? ==> (r.value[0] == 'g' <==> |ids| > 2)
  {
    if |ids| < 2 then Failure(InvalidArguments)
    else
      var sorted := Sort(ids);
      if |ids| == 2 then Success("d_" + Join(sorted))
      else Success("g_" + Join(sorted))
  }

  /**
   * The shape of an identifier: the kind tag, then the ids in sorted order,
   * each as often as it was supplied (duplicates kept), joined by `_`.
   * Any sorted arrangement `s` of the ids gives the same string.
   */
  lemma CreateShape(ids: seq<string>, s: seq<string>)
    requires |ids| >= 2
    requires Sorted(s) && multiset(s) == multiset(ids)
    ensures CreateConversationId(ids) ==
              Success((if |ids| == 2 then "d_" else "g_") + Join(s))
  {
    SortedUnique(Sort(ids), s);
  }

  /** Reordering the ids does not change the identifier (or the error). */
  lemma CreatePermutationInvariant(a: seq<string>, b: seq<string>)
    requires multiset(a) == multiset(b)
    ensures CreateConversationId(a) == CreateConversationId(b)
  {
    assert |a| == |multiset(a)| == |multiset(b)| == |b|;
    SortedUnique(Sort(a), Sort(b));
  }

  /** The two-party identifier: `d_`, the smaller id, `_`, the larger id; the same for (x, y) and (y, x). */
  lemma CreateDirect(x: string, y: string)
    ensures CreateConversationId([x, y]) ==
              Success("d_" + if LexLe(x, y) then x + "_" + y else y + "_" + x)
    ensures CreateConversationId([x, y]) == CreateConversationId([y, x])
  {
    LexLeTotal(x, y);
    if LexLe(x, y) {
      CreateShape([x, y], [x, y]);
    } else {
      CreateShape([x, y], [y, x]);
    }
    assert [y, x] == [y] + [x] && [x, y] == [x] + [y];
    CreatePermutationInvariant([x, y], [y, x]);
  }

  /** A joined, non-empty sequence starts with its first id, then either ends or continues with `_`. */
  lemma JoinHead(ids: seq<string>)
    requires |ids| > 0
    ensures |Join(ids)| >= |ids[0]| && Join(ids)[..|ids[0]|] == ids[0]
    ensures |ids| == 1 <==> |Join(ids)| == |ids[0]|
    ensures |ids| > 1 ==> Join(ids)[|ids[0]|] == '_' && Join(ids)[|ids[0]| + 1..] == Join(ids[1..])
  {
  }

  /** When no id contains `_`, the first id of a joined sequence ends at the first `_`. */
  lemma JoinHeadLength(a: seq<string>, b: seq<string>)
    requires |a| > 0 && |b| > 0 && NoSeparator(b)
    requires Join(a) == Join(b)
    ensures |b[0]| <= |a[0]|
  {
    JoinHead(a);
    JoinHead(b);
    var k := |a[0]|;
    assert '_' !in b[0];
    assert forall i :: 0 <= i < |b[0]| ==> Join(b)[i] == b[0][i];
    if |a| > 1 {
      assert Join(b)[k] == '_';
    } else {
      assert |Join(b)| == k;
    }
  }

  /** Joining separator-free ids loses nothing: different sequences give different strings. */
  lemma {:induction false} JoinInjective(a: seq<string>, b: seq<string>)
    requires |a| > 0 && |b| > 0 && NoSeparator(a) && NoSeparator(b)
    requires Join(a) == Join(b)
    ensures a == b
  {
    JoinHeadLength(a, b);
    JoinHeadLength(b, a);
    JoinHead(a);
    JoinHead(b);
    assert a[0] == b[0];
    assert (|a| == 1) == (|b| == 1);
    if |a| > 1 {
      JoinInjective(a[1..], b[1..]);
      assert a == [a[0]] + a[1..] && b == [b[0]] + b[1..];
    }
  }

  lemma SortKeepsNoSeparator(ids: seq<string>)
    requires NoSeparator(ids)
    ensures NoSeparator(Sort(ids))
  {
    forall i | 0 <= i < |Sort(ids)|
      ensures '_' !in Sort(ids)[i]
    {
      assert Sort(ids)[i] in multiset(Sort(ids));
      assert Sort(ids)[i] in ids;
    }
  }

  /**
   * For two or more ids without `_`, the identifier determines the
   * participants: two calls give the same identifier exactly when they are
   * given the same multiset of ids.
   */
  lemma CreateCanonical(a: seq<string>, b: seq<string>)
    requires |a| >= 2 && NoSeparator(a) && NoSeparator(b)
    ensures CreateConversationId(a) == CreateConversationId(b) <==> multiset(a) == multiset(b)
  {
    if multiset(a) == multiset(b) {
      CreatePermutationInvariant(a, b);
    }
    if CreateConversationId(a) == CreateConversationId(b) {
      var id := CreateConversationId(a).value;
      SortLength(a);
      SortLength(b);
      SortKeepsNoSeparator(a);
      SortKeepsNoSeparator(b);
      assert id[2..] == Join(Sort(a)) == Join(Sort(b));
      JoinInjective(Sort(a), Sort(b));
    }
  }

  /**
   * Without the separator restriction two different pairs of users can
   * share an identifier: ("x_y", "z") and ("x", "y_z") both give "d_x_y_z".
   */
  lemma CreateCollidesOnSeparator(x: string, y: string, z: string)
    requires LexLe(x + "_" + y, z) && LexLe(x, y + "_" + z)
    ensures CreateConversationId([x + "_" + y, z]) == CreateConversationId([x, y + "_" + z])
    ensures CreateConversationId([x, y + "_" + z]) == Success("d_" + x + "_" + y + "_" + z)
  {
    var xy, yz := x + "_" + y, y + "_" + z;
    CreateShape([xy, z], [xy, z]);
    CreateShape([x, yz], [x, yz]);
    assert Join([xy, z]) == xy + "_" + z;
    assert Join([x, yz]) == x + "_" + yz;
    ConcatAssociative("d_", x, y, z);
  }

  /** Regrouping three ids joined by `_` behind a tag. */
  lemma ConcatAssociative(tag: string, x: string, y: string, z: string)
    ensures tag + x + "_" + y + "_" + z == tag + ((x + "_" + y) + "_" + z)
    ensures (x + "_" + y) + "_" + z == x + "_" + (y + "_" + z)
  {
  }

  /** Fewer than two ids is the `Invalid arguments` error. */
  lemma CreateTooFewExample()
    ensures CreateConversationId([]) == CreateConversationId(["a"]) == Failure(InvalidArguments)
  {
  }

  /** The order of the arguments does not matter, and duplicates are kept. */
  lemma CreateDirectExamples()
    ensures CreateConversationId(["b", "a"]) == CreateConversationId(["a", "b"]) == Success("d_a_b")
    ensures CreateConversationId(["a", "a"]) == Success("d_a_a")
  {
    assert !LexLe("b", "a") && LexLe("a", "a");
    CreateDirect("b", "a");
    CreateDirect("a", "a");
    assert "d_" + ("a" + "_" + "b") == "d_a_b";
    assert "d_" + ("a" + "_" + "a") == "d_a_a";
  }

  /** Three ids give the group tag followed by all three, smallest first. */
  lemma CreateGroupOfThree(a: string, b: string, c: string)
    requires LexLe(a, b) && LexLe(b, c)
    ensures CreateConversationId([c, a, b]) == Success("g_" + (a + "_" + (b + "_" + c)))
  {
    SortedThree(a, b, c);
    CreateShape([c, a, b], [a, b, c]);
    JoinThree(a, b, c);
  }

  lemma SortedThree(a: string, b: string, c: string)
    requires LexLe(a, b) && LexLe(b, c)
    ensures Sorted([a, b, c]) && multiset([a, b, c]) == multiset([c, a, b])
  {
  }

  lemma JoinThree(a: string, b: string, c: string)
    ensures Join([a, b, c]) == a + "_" + (b + "_" + c)
  {
    assert [a, b, c][1..] == [b, c];
    assert [b, c][1..] == [c];
    assert Join([b, c]) == b + "_" + c;
  }
}
