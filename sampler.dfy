/** The body of the measurement thread: two unfiltered sends at startup, then
    passes that each evaluate the seven periodic extractors in a fixed order and
    send every result that is not `NaN`. The channel is modelled by the sequence
    of values handed to `send` and the prefix of it the receiver got; a send to a
    dropped receiver is logged and the worker carries on. */
module Sampler {
  import opened Ints
  import opened Wrappers
  import opened Measurements
  import opened WmiQuery
  import opened GpuData
  import opened Thermal
  import opened WmiData

  /** What the collaborators answer during one pass. `get_cpu_temp` and
      `get_cpu_temp_max` each issue the thermal-zone query, so a pass sees two answers. */
  datatype PassInputs = PassInputs(
    zonesForAverage: QueryResult,
    zonesForPeak: QueryResult,
    availableMemory: QueryResult,
    processors: QueryResult,
    device: Option<Device>)

  /** A pass runs to its end without a panic: the memory query (`unwrap`ped)
      succeeds and no `i32` arithmetic overflows. */
  predicate PassCompletes(p: PassInputs)
  {
    && (p.zonesForAverage.QOk? ==> AvgFits(p.zonesForAverage.rows))
    && (p.zonesForPeak.QOk? ==> AllZonesFit(p.zonesForPeak.rows))
    && p.availableMemory.QOk?
    && (p.processors.QOk? ==> |Loads(p.processors.rows)| <= I32_MAX)
  }

  /** The `results` vector of one pass, in the source's order. */
  function PassResults(p: PassInputs): (r: seq<Measurement>)
    requires PassCompletes(p)
    ensures |r| == 7
  {
    [ CpuTemp(p.zonesForAverage),
      CpuTempMax(p.zonesForPeak),
      GetAvailableMemory(p.availableMemory),
      CpuUtilization(p.processors),
      GetUsedVram(p.device),
      GetGpuUtil(p.device),
      GetGpuTemp(p.device) ]
  }

  /** `s` with every `NaN` removed, order kept. The derived equality behind
      `res != Measurement::NaN` compares the variant first, so this is a test of the tag. */
  function WithoutNaN(s: seq<Measurement>): seq<Measurement>
  {
    if |s| == 0 then []
    else WithoutNaN(s[..|s| - 1]) + (if s[|s| - 1] != NaN then [s[|s| - 1]] else [])
  }

  lemma WithoutNaNSnoc(s: seq<Measurement>, m: Measurement)
    ensures WithoutNaN(s + [m]) == WithoutNaN(s) + (if m != NaN then [m] else [])
  {
    assert (s + [m])[..|s|] == s;
  }

  /** The filter drops exactly the `NaN`s: every other value keeps its number of
      occurrences, so each is sent exactly once, and nothing is added. */
  lemma {:induction false} WithoutNaNKeepsSamples(s: seq<Measurement>)
    ensures multiset(WithoutNaN(s)) == multiset(s)[NaN := 0]
    ensures NaN !in WithoutNaN(s)
    ensures |WithoutNaN(s)| <= |s|
    ensures NaN !in s ==> WithoutNaN(s) == s
  {
    if |s| > 0 {
      var init, m := s[..|s| - 1], s[|s| - 1];
      assert s == init + [m];
      WithoutNaNKeepsSamples(init);
      assert NaN !in s ==> NaN !in init;
    }
  }

  predicate AllComplete(ps: seq<PassInputs>)
  {
    forall i | 0 <= i < |ps| :: PassCompletes(ps[i])
  }

  /** Everything the passes send, pass after pass. */
  function Stream(ps: seq<PassInputs>): seq<Measurement>
    requires AllComplete(ps)
  {
    if |ps| == 0 then []
    else Stream(ps[..|ps| - 1]) + WithoutNaN(PassResults(ps[|ps| - 1]))
  }

  /** The passes never send `NaN` and send at most seven values each. */
  lemma {:induction false} StreamHasNoNaN(ps: seq<PassInputs>)
    requires AllComplete(ps)
    ensures NaN !in Stream(ps)
    ensures |Stream(ps)| <= 7 * |ps|
  {
    if |ps| > 0 {
      var init := ps[..|ps| - 1];
      assert AllComplete(init);
      StreamHasNoNaN(init);
      WithoutNaNKeepsSamples(PassResults(ps[|ps| - 1]));
    }
  }

  /** What the first `k` passes send is a prefix of what all passes send: pass N's
      values all precede pass N+1's. */
  lemma {:induction false} StreamPrefix(ps: seq<PassInputs>, k: nat)
    requires AllComplete(ps) && k <= |ps|
    ensures AllComplete(ps[..k])
    ensures |Stream(ps[..k])| <= |Stream(ps)|
    ensures Stream(ps)[..|Stream(ps[..k])|] == Stream(ps[..k])
  {
    if k < |ps| {
      var init := ps[..|ps| - 1];
      assert init[..k] == ps[..k];
      StreamPrefix(init, k);
    } else {
      assert ps[..k] == ps;
    }
  }

  /** What the worker hands to `send` in all: the two startup values, unfiltered,
      then the passes' values. */
  function ThreadOutput(memory: QueryResult, device: Option<Device>, ps: seq<PassInputs>): seq<Measurement>
    requires memory.QOk? && AllComplete(ps)
  {
    [GetTotalMemory(memory), GetTotalVram(device)] + Stream(ps)
  }

  /** The startup values come first and only they can be `NaN`: without a device
      the second one is. */
  lemma ThreadOutputShape(memory: QueryResult, device: Option<Device>, ps: seq<PassInputs>)
    requires memory.QOk? && AllComplete(ps)
    ensures var out := ThreadOutput(memory, device, ps);
      && |out| <= 2 + 7 * |ps|
      && out[0] == GetTotalMemory(memory) && out[1] == GetTotalVram(device)
      && NaN !in out[2..]
      && (device.None? ==> out[1] == NaN)
  {
    StreamHasNoNaN(ps);
    assert ThreadOutput(memory, device, ps)[2..] == Stream(ps);
  }

  class Worker {
    /** Whether a GPU device handle was obtained at startup; it is never re-acquired. */
    const gpuPresent: bool
    /** Every value handed to `tx.send`, in order. */
    var sent: seq<Measurement>
    /** The values the receiver got. */
    var delivered: seq<Measurement>
    /** The number of "measurment error" lines written to standard error. */
    var failedSends: nat
    /** Whether the receiver is still connected; once dropped it stays dropped. */
    var receiverAlive: bool

    /** The receiver got a prefix of what was sent (all of it while connected),
        and every other send was logged as failed. */
    ghost predicate Valid()
      reads this
    {
      && |delivered| <= |sent|
      && delivered == sent[..|delivered|]
      && (receiverAlive ==> delivered == sent)
      && failedSends == |sent| - |delivered|
    }

    /** Startup: the total-memory and total-VRAM sends, without the `NaN` filter. */
    constructor Start(memory: QueryResult, device: Option<Device>, receiverAlive: bool)
      requires memory.QOk?
      ensures Valid()
      ensures gpuPresent == device.Some? && this.receiverAlive == receiverAlive
      ensures sent == [GetTotalMemory(memory), GetTotalVram(device)]
      ensures delivered == if receiverAlive then sent else []
    {
      gpuPresent := device.Some?;
      sent, delivered, failedSends := [], [], 0;
      this.receiverAlive := receiverAlive;
      new;
      Send(GetTotalMemory(memory));
      Send(GetTotalVram(device));
    }

    /** `tx.send(m)`, with a failure logged and otherwise ignored. */
    method Send(m: Measurement)
      requires Valid()
      modifies this
      ensures Valid()
      ensures sent == old(sent) + [m] && receiverAlive == old(receiverAlive)
      ensures delivered == if receiverAlive then old(delivered) + [m] else old(delivered)
    {
      sent := sent + [m];
      if receiverAlive {
        delivered := delivered + [m];
      } else {
        failedSends := failedSends + 1;
      }
    }

    /** The consumer drops its receiver; every later send fails. */
    method DropReceiver()
      requires Valid()
      modifies this
      ensures Valid() && !receiverAlive
      ensures sent == old(sent) && delivered == old(delivered)
    {
      receiverAlive := false;
    }

    /** The `for res in results` loop: every value but `NaN` is sent, in order. */
    method SendSamples(results: seq<Measurement>)
      requires Valid()
      modifies this
      ensures Valid() && receiverAlive == old(receiverAlive)
      ensures sent == old(sent) + WithoutNaN(results)
      ensures delivered == if receiverAlive then old(delivered) + WithoutNaN(results) else old(delivered)
    {
      for i := 0 to |results|
        invariant Valid() && receiverAlive == old(receiverAlive)
        invariant sent == old(sent) + WithoutNaN(results[..i])
        invariant delivered == if receiverAlive then old(delivered) + WithoutNaN(results[..i]) else old(delivered)
      {
        assert results[..i + 1] == results[..i] + [results[i]];
        WithoutNaNSnoc(results[..i], results[i]);
        if results[i] != NaN {
          Send(results[i]);
        }
      }
      assert results[..|results|] == results;
    }

    /** One pass of the sampling loop (the sleep that ends it is not modelled).
        A dropped receiver does not stop the pass. */
    method Pass(p: PassInputs)
      requires Valid() && PassCompletes(p) && p.device.Some? == gpuPresent
      modifies this
      ensures Valid() && receiverAlive == old(receiverAlive)
      ensures sent == old(sent) + WithoutNaN(PassResults(p))
      ensures delivered == if receiverAlive then old(delivered) + WithoutNaN(PassResults(p)) else old(delivered)
    {
      var cpuTemp := GetCpuTemp(p.zonesForAverage);
      var cpuTempMax := GetCpuTempMax(p.zonesForPeak);
      var availableMemory := GetAvailableMemory(p.availableMemory);
      var cpuUtil := GetCpuUtil(p.processors);
      var results := [cpuTemp, cpuTempMax, availableMemory, cpuUtil,
                      GetUsedVram(p.device), GetGpuUtil(p.device), GetGpuTemp(p.device)];
      assert results == PassResults(p);
      SendSamples(results);
    }

    /** `passes` passes of the sampling loop, one after another. */
    method Run(ps: seq<PassInputs>)
      requires Valid() && AllComplete(ps)
      requires forall i | 0 <= i < |ps| :: ps[i].device.Some? == gpuPresent
      modifies this
      ensures Valid() && receiverAlive == old(receiverAlive)
      ensures sent == old(sent) + Stream(ps)
      ensures delivered == if receiverAlive then old(delivered) + Stream(ps) else old(delivered)
    {
      for k := 0 to |ps|
        invariant Valid() && receiverAlive == old(receiverAlive)
        invariant AllComplete(ps[..k])
        invariant sent == old(sent) + Stream(ps[..k])
        invariant delivered == if receiverAlive then old(delivered) + Stream(ps[..k]) else old(delivered)
      {
        assert ps[..k + 1][..k] == ps[..k];
        assert AllComplete(ps[..k + 1]);
        Pass(ps[k]);
      }
      assert ps[..|ps|] == ps;
    }
  }

  /** The measurement thread after startup and a bounded number of passes. */
  method MeasurementThread(memory: QueryResult, device: Option<Device>, receiverAlive: bool,
                           ps: seq<PassInputs>) returns (w: Worker)
    requires memory.QOk? && AllComplete(ps)
    requires forall i | 0 <= i < |ps| :: ps[i].device.Some? == device.Some?
    ensures w.Valid() && w.receiverAlive == receiverAlive
    ensures w.sent == ThreadOutput(memory, device, ps)
    ensures w.delivered == if receiverAlive then w.sent else []
  {
    w := new Worker.Start(memory, device, receiverAlive);
    w.Run(ps);
  }
}
