/**
 What a request answers and what it commits, told from its items: the body is one document, the array of the items'
 documents when there are several, and items that write nothing lasting leave no trace (relexec/relexec.go).
 */
module ExecuteBody {
  import opened Wrappers
  import opened Bytes
  import opened Execute
  import CborEncode
  import CborGrammar
  import CborShape
  import JsonText

  // ---- the documents of the items ---------------------------------------------------------------------------------

  /** The response of an item, whole. */
  function ResponseOf<S>(items: seq<Item<S>>, i: nat, db: S): seq<byte>
    requires i < |items|
  {
    Joined(items[i].render(Seen(items, i, db)))
  }

  /** The response of each item is a JSON document, with white space around it if it likes. */
  ghost predicate JsonItems<S>(items: seq<Item<S>>, db: S, docs: seq<JsonText.Element>) {
    |docs| == |items| && forall i :: 0 <= i < |items| ==> ResponseOf(items, i, db) == JsonText.ElementText(docs[i])
  }

  lemma {:induction false} ResponsesListed<S>(items: seq<Item<S>>, count: nat, db: S, docs: seq<JsonText.Element>)
    requires JsonItems(items, db, docs) && count <= |items|
    ensures Responses(items, count, Json, db) == JsonText.Commas(JsonText.ElementTexts(docs[..count]))
  {
    hide JsonText.ElementText, Joined, Seen;
    if count > 0 {
      ResponsesListed(items, count - 1, db, docs);
      var texts := JsonText.ElementTexts(docs[..count]);
      assert texts[..count - 1] == JsonText.ElementTexts(docs[..count - 1]);
      assert ResponseOf(items, count - 1, db) == texts[count - 1];
    }
  }

  /**
   Several items in JSON: the body is the text of the array of their documents; the body of one item is its document.
   */
  lemma JsonBody<S>(items: seq<Item<S>>, db: S, docs: seq<JsonText.Element>)
    requires JsonItems(items, db, docs) && items != []
    ensures |items| > 1 ==> Body(items, Json, db) == JsonText.TextOf(JsonText.JArray([], docs))
    ensures |items| == 1 ==> Body(items, Json, db) == JsonText.ElementText(docs[0])
  {
    hide JsonText.ElementText, JsonText.TextOf, Responses;
    ResponsesListed(items, |items|, db, docs);
    assert docs[..|docs|] == docs;
    JsonText.ArrayText(docs);
  }

  // ---- in CBOR ----------------------------------------------------------------------------------------------------

  ghost predicate CborItems<S>(items: seq<Item<S>>, db: S, docs: seq<CborGrammar.Wire>) {
    && |docs| == |items| && CborGrammar.AllWellFormed(docs)
    && forall i :: 0 <= i < |items| ==> CborGrammar.WellFormed(docs[i])
                                        && ResponseOf(items, i, db) == CborGrammar.Spell(docs[i])
  }

  lemma {:induction false} SpelledOne(xs: seq<CborGrammar.Wire>, i: nat)
    requires CborGrammar.AllWellFormed(xs) && i < |xs|
    ensures CborGrammar.WellFormed(xs[i]) && CborGrammar.AllWellFormed(xs[..i])
            && CborGrammar.AllWellFormed(xs[..i + 1])
    ensures CborGrammar.SpellAll(xs[..i + 1]) == CborGrammar.SpellAll(xs[..i]) + CborGrammar.Spell(xs[i])
  {
    hide CborGrammar.WellFormed, CborGrammar.Spell;
    if i == 0 {
      assert xs[..1][1..] == [] && xs[..0] == [];
    } else {
      SpelledOne(xs[1..], i - 1);
      assert xs[..i + 1][1..] == xs[1..][..i] && xs[..i][1..] == xs[1..][..i - 1] && xs[1..][i - 1] == xs[i];
    }
  }

  lemma {:induction false} ResponsesSpelled<S>(items: seq<Item<S>>, count: nat, db: S, docs: seq<CborGrammar.Wire>)
    requires CborItems(items, db, docs) && count <= |items|
    ensures CborGrammar.AllWellFormed(docs[..count])
    ensures Responses(items, count, Cbor, db) == CborGrammar.SpellAll(docs[..count])
  {
    hide Joined, Seen, CborGrammar.Spell, CborGrammar.WellFormed;
    if count > 0 {
      ResponsesSpelled(items, count - 1, db, docs);
      SpelledOne(docs, count - 1);
      assert ResponseOf(items, count - 1, db) == CborGrammar.Spell(docs[count - 1]);
    }
  }

  /** Several items in CBOR: the body spells the array of their items, of definite length; one item's is its own. */
  lemma CborBody<S>(items: seq<Item<S>>, db: S, docs: seq<CborGrammar.Wire>)
    requires CborItems(items, db, docs) && 0 < |items| < TWO64
    ensures var x := if |items| == 1 then docs[0] else CborGrammar.Sequence(Some(CborShape.Shortest(|items|)), docs);
            CborGrammar.WellFormed(x) && Body(items, Cbor, db) == CborGrammar.Spell(x)
  {
    hide Responses, CborGrammar.SpellAll, CborGrammar.AllWellFormed, CborEncode.HeadBytes, CborGrammar.HeadOf;
    ResponsesSpelled(items, |items|, db, docs);
    assert docs[..|docs|] == docs;
    CborShape.HeadShortest(4, |items|);
    if |items| == 1 {
      OneSpelled(docs[0]);
      assert docs == [docs[0]];
    }
  }

  lemma OneSpelled(x: CborGrammar.Wire)
    requires CborGrammar.WellFormed(x)
    ensures CborGrammar.AllWellFormed([x]) && CborGrammar.SpellAll([x]) == CborGrammar.Spell(x)
  {
    assert [x][1..] == [];
  }

  // ---- what is committed ------------------------------------------------------------------------------------------

  /** An item that writes nothing, or is rolled back, leaves no trace; any other has its effect where it stands. */
  lemma {:induction false} AfterItem<S>(a: seq<Item<S>>, x: Item<S>, b: seq<Item<S>>, db: S)
    ensures After(a + [x] + b, db)
            == if x.isWrite && !x.rollback then After(b, x.effect(After(a, db))) else After(a + b, db)
    ensures After([], db) == db
    decreases |b|
  {
    var all := a + [x] + b;
    if b == [] {
      assert all == a + [x] && all[..|all| - 1] == a && a + b == a;
    } else {
      var init := b[..|b| - 1];
      AfterItem(a, x, init, db);
      assert all[..|all| - 1] == a + [x] + init && (a + b)[..|a + b| - 1] == a + init;
    }
  }

  /**
   A write that is undone, or that keeps its rows aside, answers from right after itself; every other item from the
   state all the lasting writes leave.
   */
  lemma SeenItem<S>(a: seq<Item<S>>, x: Item<S>, b: seq<Item<S>>, db: S)
    ensures Seen(a + [x] + b, |a|, db)
            == if x.isWrite && (x.rollback || x.captures) then x.effect(After(a, db)) else After(a + [x] + b, db)
  {
    assert (a + [x] + b)[..|a|] == a;
  }
}
