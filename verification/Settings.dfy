/** The settings the handlers consult (state/settings.go). */
module Settings {
  import opened Float32
  import opened Frequency

  /** The password is kept as the hash that requests are compared with. */
  datatype Coalition = Coalition(name: string, passwordHash: string)

  /** Matching against a list of frequencies entered in kHz is membership of the integer. */
  lemma ContainsByKilohertz(frequencies: seq<Float>, kHz: seq<nat>, k: nat)
    requires |kHz| == |frequencies| && k <= LAST_DISTINCT
    requires forall i | 0 <= i < |kHz| :: kHz[i] <= LAST_DISTINCT && frequencies[i] == Megahertz(kHz[i])
    ensures Contains(frequencies, Megahertz(k)) <==> k in kHz
  {
    forall i | 0 <= i < |kHz|
      ensures Eq(frequencies[i], Megahertz(k)) <==> kHz[i] == k
    {
      MatchIsKilohertzEquality(kHz[i], k);
    }
  }

  predicate IsCoalition(coalitions: seq<Coalition>, name: string) {
    exists i | 0 <= i < |coalitions| :: coalitions[i].name == name
  }

  class SettingsState {
    var coalitions: seq<Coalition>
    var testFrequencies: seq<Float>
    var globalFrequencies: seq<Float>
    var enableGuestAuth: bool
    var enablePluginAuth: bool

    constructor (coalitions: seq<Coalition>, testFrequencies: seq<Float>, globalFrequencies: seq<Float>,
                 enableGuestAuth: bool, enablePluginAuth: bool)
      ensures this.coalitions == coalitions
      ensures this.testFrequencies == testFrequencies && this.globalFrequencies == globalFrequencies
      ensures this.enableGuestAuth == enableGuestAuth && this.enablePluginAuth == enablePluginAuth
    {
      this.coalitions := coalitions;
      this.testFrequencies, this.globalFrequencies := testFrequencies, globalFrequencies;
      this.enableGuestAuth, this.enablePluginAuth := enableGuestAuth, enablePluginAuth;
    }

    method DoesCoalitionExist(name: string) returns (exist: bool)
      ensures exist <==> IsCoalition(coalitions, name)
    {
      for i := 0 to |coalitions|
        invariant forall k | 0 <= k < i :: coalitions[k].name != name
      {
        if coalitions[i].name == name {
          return true;
        }
      }
      return false;
    }

    /** Each list is searched for its own kind of frequency; one with the number of kHz entered counts. */
    lemma FrequenciesByKilohertz(test: seq<nat>, global: seq<nat>, k: nat)
      requires |test| == |testFrequencies| && |global| == |globalFrequencies| && k <= LAST_DISTINCT
      requires forall i | 0 <= i < |test| :: test[i] <= LAST_DISTINCT && testFrequencies[i] == Megahertz(test[i])
      requires forall i | 0 <= i < |global| :: global[i] <= LAST_DISTINCT && globalFrequencies[i] == Megahertz(global[i])
      ensures IsFrequencyTest(Megahertz(k)) <==> k in test
      ensures IsFrequencyGlobal(Megahertz(k)) <==> k in global
    {
      ContainsByKilohertz(testFrequencies, test, k);
      ContainsByKilohertz(globalFrequencies, global, k);
    }

    predicate IsFrequencyGlobal(f: Float)
      reads this
    {
      Contains(globalFrequencies, f)
    }

    predicate IsFrequencyTest(f: Float)
      reads this
    {
      Contains(testFrequencies, f)
    }
  }
}
