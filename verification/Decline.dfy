/** What becomes of a request that the static handler declines: two decisions, written apart, that have to agree. */
module Decline {
  import opened Wrappers
  import opened Negotiation
  import opened StaticPolicy
  import opened Configuration
  import opened Priority
  import S = Sidecar
  import W = WorkerPool

  /** The static handler's view of what the runtime filter can do is the filter's own: where it counts on the
      filter, the filter's negotiation does select a coding, and not identity. */
  lemma FilterTakesOver(settings: Settings, a: AcceptEncoding)
    ensures var choice := Negotiate(a, settings.priority, W.Available(settings));
            S.RuntimeAcceptable(settings, a) <==> settings.enabled && choice.Selected? && choice.coding != Identity
  {
    NegotiateSame(a, settings.priority, S.RuntimeAvailable(settings), W.Available(settings));
  }

  /** In `on` mode over any configured priority: the static handler refuses exactly when neither a sidecar nor the
      file itself is acceptable, and the runtime filter, if it is on, would refuse too. */
  lemma RefusesOnlyForBoth(profile: Option<Profile>, explicit: Option<seq<ContentCoding>>, settings: Settings,
                           facts: Facts, files: S.Files, h: S.Headers)
    requires Configured(explicit) && settings.priority == Resolved(profile, explicit)
    requires settings.mode == On && NamesAFile(facts)
    ensures var r := S.ServeAnswer(settings, facts, files, h);
            var sidecars := Negotiate(facts.accept, settings.priority, S.Representations(files));
            var runtime := Negotiate(facts.accept, settings.priority, W.Available(settings));
            r.outcome != S.ServerError ==>
              (r.outcome == S.Refused <==> sidecars == NotAcceptable && (settings.enabled ==> runtime == NotAcceptable))
  {
    IdentityIsLast(profile, explicit);
    var preference := settings.priority[..4];
    hide Resolved, Configured, S.ServeAnswer, S.SomethingAcceptable, Negotiate, QualityOf;
    S.OnModeServes(settings, preference, facts, files, h, Identity);
    NegotiateSame(facts.accept, settings.priority, S.RuntimeAvailable(settings), W.Available(settings));
    var i := NegotiateBest(facts.accept, settings.priority, S.Representations(files));
    var k := NegotiateBest(facts.accept, settings.priority, S.RuntimeAvailable(settings));
    SomethingIff(settings, facts.accept, files, i, k);
  }

  lemma SomethingIff(settings: Settings, a: AcceptEncoding, files: S.Files, i: nat, k: nat)
    requires var r := Negotiate(a, settings.priority, S.Representations(files));
             if r.Selected? then
               IsBest(a, settings.priority, S.Representations(files), i) && settings.priority[i] == r.coding
             else forall j :: 0 <= j < |settings.priority| && S.Representations(files)(settings.priority[j]) ==>
                    QualityOf(a, settings.priority[j]) == 0
    requires var r := Negotiate(a, settings.priority, S.RuntimeAvailable(settings));
             if r.Selected? then
               IsBest(a, settings.priority, S.RuntimeAvailable(settings), k) && settings.priority[k] == r.coding
             else forall j :: 0 <= j < |settings.priority| && S.RuntimeAvailable(settings)(settings.priority[j]) ==>
                    QualityOf(a, settings.priority[j]) == 0
    ensures S.SomethingAcceptable(settings, a, files) <==>
              || Negotiate(a, settings.priority, S.Representations(files)).Selected?
              || (settings.enabled && Negotiate(a, settings.priority, S.RuntimeAvailable(settings)).Selected?)
  {
    hide QualityOf, Negotiate;
    if Negotiate(a, settings.priority, S.Representations(files)).Selected? {
      assert settings.priority[i] in settings.priority;
    } else if settings.enabled && Negotiate(a, settings.priority, S.RuntimeAvailable(settings)).Selected? {
      assert settings.priority[k] in settings.priority;
    }
  }
}
