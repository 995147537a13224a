/** The encode/decode hop by which the manager hands a set of conditions to an executor. */
module PropertyHop {
  import opened Common
  import opened Tlv
  import opened AttributeState
  import opened AttributeIntegrity
  import opened AttributeRoundTrip
  import AuthAttributes
  import TagSort

  /**
   * The executor's copy answers every getter as the caller's object did, up to empty byte
   * arrays; the caller's object keeps its values and only sorts its recorded tags.
   */
  method Forward(conditions: AuthAttributes.AuthAttributes) returns (properties: AuthAttributes.AuthAttributes)
    requires Integrity(TABLE, conditions.State()) && PackSize(conditions.State()) <= MAX_BUFFER
    modifies conditions
    ensures fresh(properties) && Integrity(TABLE, properties.State())
    ensures forall ty, t ::
              Get(properties.State(), ty, t) ==
              if ty == U8sType && EmptyBytes(old(conditions.State()), t) then None
              else Get(old(conditions.State()), ty, t)
    ensures SameAnswers(conditions.State(), old(conditions.State()))
    ensures Integrity(TABLE, conditions.State())
  {
    hide Integrity, PackBytes, PackSize;
    ghost var st := conditions.State();
    IntegrityPacks(TABLE, st);
    PackLength(st);
    RoundTrip(TABLE, st);
    properties := new AuthAttributes.AuthAttributes();
    var buffer := conditions.Pack();
    SortedTwin(st, conditions.State());
    var outcome := properties.UnpackBuffer(buffer);
  }

  lemma SortedTwin(st: Attrs, after: Attrs)
    requires Integrity(TABLE, st) && after == st.(exist := TagSort.SortTags(st.exist))
    ensures SameAnswers(after, st) && Integrity(TABLE, after)
  {
    hide TagSort.SortTags, Get;
    TagSort.SortKeeps(st.exist);
    forall ty, t ensures Get(after, ty, t) == Get(st, ty, t) {
      OrderIsNoAnswer(st, TagSort.SortTags(st.exist), ty, t);
    }
  }

  lemma OrderIsNoAnswer(st: Attrs, exist: seq<Tag>, ty: ValueType, t: Tag)
    ensures Get(st.(exist := exist), ty, t) == Get(st, ty, t)
  {
  }
}
