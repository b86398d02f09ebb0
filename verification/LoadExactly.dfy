/**
 When loading succeeds: on the events of a well-nested document, exactly if no anchor is repeated and every alias comes
 after its anchor.
 */
module LoadExactly {
  import opened Options
  import opened YamlGraph
  import opened Nesting
  import opened LoadSpec
  import opened LoadLaw
  import opened Compose

  /** Events behind a DOCUMENT-START, at most up to the DOCUMENT-END. */
  ghost predicate OfDocument(es: seq<Event>) {
    AcceptAll(Nesting.Open([Doc(false)]), es).Some? && forall k :: 0 <= k < |es| - 1 ==> !es[k].DocumentEnd?
  }

  lemma {:induction false} NoAssertion(es: seq<Event>)
    requires OfDocument(es)
    ensures var r, n := LoadAll(EMPTY, es), AcceptAll(Nesting.Open([Doc(false)]), es).value;
      && !r.AssertFailed?
      && (r.Loaded? && (es == [] || !LoadLaw.Last(es).DocumentEnd?) ==> n.Open? && Composed(r.st, n.stack))
      && (r.Loaded? && es != [] && LoadLaw.Last(es).DocumentEnd? ==> WellFormed(r.st.nodes) && r.st.ctx == [])
    decreases |es|
  {
    hide Composed, Accept, Step, WellFormed;
    if es == [] {
      assert Composed(EMPTY, [Doc(false)]) by { Begins(); }
    } else {
      var front, ev := Front(es), LoadLaw.Last(es);
      assert es == front + [ev];
      forall k | 0 <= k < |front| ensures !front[k].DocumentEnd? { assert front[k] == es[k]; }
      assert front != [] ==> !LoadLaw.Last(front).DocumentEnd?;
      NoAssertion(front);
      LoadConcat(EMPTY, front, [ev]);
      assert [ev][1..] == [];
      var r := LoadAll(EMPTY, front);
      if r.Loaded? {
        ComposeStep(r.st, AcceptAll(Nesting.Open([Doc(false)]), front).value.stack, ev);
      }
    }
  }

  lemma Begins()
    ensures Composed(EMPTY, [Doc(false)])
  {
  }

  /** A load succeeds exactly on sound events, and then gives the document that they say. */
  lemma LoadsExactly(es: seq<Event>)
    requires OfDocument(es)
    ensures var r := LoadAll(EMPTY, es);
      && !r.AssertFailed? && (r.Loaded? <==> Sound(es)) && (r.Loaded? ==> Represents(es, r.st.nodes))
      && (r.Loaded? && es != [] && LoadLaw.Last(es).DocumentEnd? ==> WellFormed(r.st.nodes))
  {
    hide Represents, Sound, OfDocument;
    NoAssertion(es);
    Loads(es);
  }
}
