/**
 * Intel GPU device ids, the series they belong to and the series' generation.
 *
 * A device id is a hex string such as "0x9a49". Its series is looked up
 * from the id with its last two digits replaced by "00" (the masked id),
 * with a few families split further on the full id; the generation is a
 * second table over series names.
 */
module IntelGpu {
  import opened Wrappers
  import opened Text

  /** Python's `s[:-2]`: everything but the last two characters, empty when there are fewer. */
  function DropLastTwo(s: string): (r: string)
    ensures |r| == (if |s| < 2 then 0 else |s| - 2)
    ensures r == s[..|r|]
  {
    if |s| < 2 then [] else s[..|s| - 2]
  }

  /** `'%s00' % gpu_device_id.lower()[:-2]`. */
  function MaskedId(gpuDeviceId: string): (m: string)
    ensures EndsWith(m, "00")
    ensures |m| == (if |gpuDeviceId| < 2 then 2 else |gpuDeviceId|)
  {
    DropLastTwo(Lower(gpuDeviceId)) + "00"
  }

  const Gen12: set<string> := {"tigerlake", "rocketlake", "dg1", "alderlake", "alchemist", "raptorlake", "meteorlake"}
  const Gen11: set<string> := {"icelake", "elkhartlake", "jasperlake"}
  const Gen9: set<string> :=
    {"apollolake", "skylake", "geminilake", "kabylake", "amberlake", "coffeelake", "whiskeylake", "cometlake"}
  const Gen8: set<string> := {"cherrytrail", "broadwell"}
  const Gen7: set<string> := {"baytrail", "haswell", "ivybridge"}
  const Gen4: set<string> := {"broadwater", "eaglelake"}

  /** Every series name the generation table knows. */
  const KnownSeries: set<string> :=
    Gen12 + Gen11 + {"cannonlake"} + Gen9 + Gen8 + Gen7 + {"sandybridge"} + {"ironlake"} + Gen4

  /** The masked ids whose series also depends on the full id. */
  const SplitFamilies: set<string> := {"0x5a00", "0x5900", "0x8700", "0x3e00", "0x0a00", "0x0100", "0x2a00"}

  /**
   * The series table. `lowercaseId` and `maskedId` are derived from the
   * device id; `apolloProbe` is the string compared against "0x0a84" in
   * the 0x0a00 family, which decides between apollolake and haswell.
   */
  function SeriesOf(lowercaseId: string, maskedId: string, apolloProbe: string): (r: Option<string>)
    ensures r.Some? ==> r.value in KnownSeries
  {
    // Gen 12
    if maskedId == "0x9a00" then Some("tigerlake")
    else if maskedId == "0x4c00" then Some("rocketlake")
    else if maskedId == "0x4900" then Some("dg1")
    else if maskedId == "0x4600" then Some("alderlake")
    else if maskedId in {"0x4f00", "0x5600"} then Some("alchemist")
    else if maskedId == "0xa700" then Some("raptorlake")
    else if maskedId == "0x7d00" then Some("meteorlake")
    // Gen 11
    else if maskedId == "0x8a00" then Some("icelake")
    else if maskedId == "0x4500" then Some("elkhartlake")
    else if maskedId == "0x4e00" then Some("jasperlake")
    // Gen 10
    else if maskedId == "0x5a00" then
      if lowercaseId in {"0x5a84", "0x5a85"} then Some("apollolake") else Some("cannonlake")
    // Gen 9
    else if maskedId == "0x1900" then Some("skylake")
    else if maskedId == "0x1a00" then Some("apollolake")
    else if maskedId == "0x3100" then Some("geminilake")
    else if maskedId == "0x5900" then
      if lowercaseId == "0x591c" then Some("amberlake") else Some("kabylake")
    else if maskedId == "0x8700" then
      if lowercaseId == "0x87c0" then Some("kabylake")
      else if lowercaseId == "0x87ca" then Some("coffeelake")
      else None
    else if maskedId == "0x3e00" then
      if lowercaseId in {"0x3ea0", "0x3ea1", "0x3ea2", "0x3ea3", "0x3ea4"} then Some("whiskeylake")
      else Some("coffeelake")
    else if maskedId == "0x9b00" then Some("cometlake")
    // Gen 8
    else if maskedId == "0x2200" then Some("cherrytrail")
    else if maskedId == "0x1600" then Some("broadwell")
    // Gen 7
    else if maskedId == "0x0f00" then Some("baytrail")
    else if maskedId in {"0x0400", "0x0c00", "0x0d00"} then Some("haswell")
    else if maskedId == "0x0a00" then
      if apolloProbe == "0x0a84" then Some("apollolake") else Some("haswell")
    // Gen 6
    else if maskedId == "0x0100" then
      if lowercaseId in {"0x0152", "0x0156", "0x015a", "0x0162", "0x0166", "0x016a"} then Some("ivybridge")
      else if lowercaseId in {"0x0155", "0x0157"} then Some("baytrail")
      else Some("sandybridge")
    // Gen 5
    else if maskedId == "0x0000" then Some("ironlake")
    // Gen 4
    else if maskedId == "0x2900" then Some("broadwater")
    else if maskedId == "0x2a00" then
      if lowercaseId in {"0x2a02", "0x2a12"} then Some("broadwater")
      else if lowercaseId == "0x2a42" then Some("eaglelake")
      else None
    else if maskedId == "0x2e00" then Some("eaglelake")
    else None
  }

  /**
   * `get_intel_gpu_series_type` as written: in the 0x0a00 family it
   * compares the id as given, not its lower-case form, with "0x0a84".
   */
  function SeriesTypeAsWritten(gpuDeviceId: string): (r: Option<string>)
    ensures r.Some? ==> r.value in KnownSeries
  {
    SeriesOf(Lower(gpuDeviceId), MaskedId(gpuDeviceId), gpuDeviceId)
  }

  /** The series of a device id, every comparison made on the lower-case id. */
  function SeriesType(gpuDeviceId: string): (r: Option<string>)
    ensures r.Some? ==> r.value in KnownSeries
  {
    SeriesOf(Lower(gpuDeviceId), MaskedId(gpuDeviceId), Lower(gpuDeviceId))
  }

  /** `get_intel_gpu_generation` on a series name, or None for no series. */
  function GenerationOf(seriesType: Option<string>): (g: Option<int>)
    ensures g.Some? <==> seriesType.Some? && seriesType.value in KnownSeries
    ensures g.Some? ==> 4 <= g.value <= 12
  {
    if seriesType.None? then None
    else
      var s := seriesType.value;
      if s in Gen12 then Some(12)
      else if s in Gen11 then Some(11)
      else if s == "cannonlake" then Some(10)
      else if s in Gen9 then Some(9)
      else if s in Gen8 then Some(8)
      else if s in Gen7 then Some(7)
      else if s == "sandybridge" then Some(6)
      else if s == "ironlake" then Some(5)
      else if s in Gen4 then Some(4)
      else None
  }

  /** `get_intel_gpu_generation` as written: the generation of the series the table as written gives. */
  function GenerationAsWritten(gpuDeviceId: string): (g: Option<int>)
    ensures g.Some? <==> SeriesTypeAsWritten(gpuDeviceId).Some?
    ensures g.Some? ==> 4 <= g.value <= 12
  {
    GenerationOf(SeriesTypeAsWritten(gpuDeviceId))
  }

  /**
   * The corrected generation of a device id: the generation of the
   * corrected series. It is the generation as written of the lower-case
   * id, so the two agree on every id already in lower case.
   */
  function Generation(gpuDeviceId: string): (g: Option<int>)
    ensures g == GenerationAsWritten(Lower(gpuDeviceId))
    ensures Lower(gpuDeviceId) == gpuDeviceId ==> g == GenerationAsWritten(gpuDeviceId)
  {
    LowerIdempotent(gpuDeviceId);
    GenerationOf(SeriesType(gpuDeviceId))
  }

  /**
   * The two tables agree: a device id has a generation exactly when it
   * has a series, and the generation lies between 4 and 12.
   */
  lemma GenerationIffSeries(gpuDeviceId: string)
    ensures Generation(gpuDeviceId).Some? <==> SeriesType(gpuDeviceId).Some?
    ensures Generation(gpuDeviceId).Some? ==> 4 <= Generation(gpuDeviceId).value <= 12
  {
  }

  lemma LowerIdempotent(s: string)
    ensures Lower(Lower(s)) == Lower(s)
  {
  }

  /** The series does not depend on the case of the id's hex digits. */
  lemma SeriesTypeIgnoresCase(gpuDeviceId: string)
    ensures SeriesType(Lower(gpuDeviceId)) == SeriesType(gpuDeviceId)
  {
    LowerIdempotent(gpuDeviceId);
  }

  /** Outside the split families, ids with the same masked id have the same series. */
  lemma SeriesByMaskedId(lowerA: string, lowerB: string, maskedId: string, probeA: string, probeB: string)
    requires maskedId != "0x5a00" && maskedId != "0x5900" && maskedId != "0x8700" && maskedId != "0x3e00"
    requires maskedId != "0x0a00" && maskedId != "0x0100" && maskedId != "0x2a00"
    ensures SeriesOf(lowerA, maskedId, probeA) == SeriesOf(lowerB, maskedId, probeB)
  {
    var a := SeriesOf(lowerA, maskedId, probeA);
    var b := SeriesOf(lowerB, maskedId, probeB);
    if maskedId == "0x9a00" || maskedId == "0x4c00" || maskedId == "0x4900" || maskedId == "0x4600" {
    } else if maskedId in {"0x4f00", "0x5600"} || maskedId == "0xa700" || maskedId == "0x7d00" {
    } else if maskedId == "0x8a00" || maskedId == "0x4500" || maskedId == "0x4e00" {
    } else if maskedId == "0x1900" || maskedId == "0x1a00" || maskedId == "0x3100" || maskedId == "0x9b00" {
    } else if maskedId == "0x2200" || maskedId == "0x1600" || maskedId == "0x0f00" {
    } else if maskedId in {"0x0400", "0x0c00", "0x0d00"} {
    } else if maskedId == "0x0000" || maskedId == "0x2900" || maskedId == "0x2e00" {
    } else {
      assert a == None;
      assert b == None;
    }
  }

  /** "0x0a00" is none of the masked ids tested before it. */
  lemma Before0a00()
    ensures "0x0a00" !in {"0x9a00", "0x4c00", "0x4900", "0x4600", "0x4f00", "0x5600", "0xa700", "0x7d00"}
    ensures "0x0a00" !in {"0x8a00", "0x4500", "0x4e00", "0x5a00", "0x1900", "0x1a00", "0x3100"}
    ensures "0x0a00" !in {"0x5900", "0x8700", "0x3e00", "0x9b00", "0x2200", "0x1600", "0x0f00"}
    ensures "0x0a00" !in {"0x0400", "0x0c00", "0x0d00"}
  {
  }

  /** The 0x0a00 family: apollolake for the probe "0x0a84", haswell otherwise. */
  lemma Family0a00(lowercaseId: string, apolloProbe: string)
    ensures SeriesOf(lowercaseId, "0x0a00", apolloProbe) ==
            (if apolloProbe == "0x0a84" then Some("apollolake") else Some("haswell"))
  {
    Before0a00();
  }

  lemma ApolloLakeIsGen9()
    ensures GenerationOf(Some("apollolake")) == Some(9)
  {
  }

  lemma HaswellIsGen7()
    ensures GenerationOf(Some("haswell")) == Some(7)
  {
  }

  /** On an id already in lower case, the table as written and the corrected one agree. */
  lemma AsWrittenAgreesOnLowerCase(gpuDeviceId: string)
    requires Lower(gpuDeviceId) == gpuDeviceId
    ensures SeriesTypeAsWritten(gpuDeviceId) == SeriesType(gpuDeviceId)
  {
  }

  lemma LowerOfIds()
    ensures Lower("0x0A84") == "0x0a84"
    ensures Lower("0x0a84") == "0x0a84"
  {
  }

  lemma MaskedOfIds()
    ensures MaskedId("0x0A84") == "0x0a00"
    ensures MaskedId("0x0a84") == "0x0a00"
  {
    LowerOfIds();
    assert DropLastTwo("0x0a84") == "0x0a";
  }

  /** "0x0A84" and "0x0a84" name the same device, yet the table as written gives them different series. */
  lemma AsWrittenDependsOnCase()
    ensures SeriesTypeAsWritten("0x0a84") == Some("apollolake")
    ensures SeriesTypeAsWritten("0x0A84") == Some("haswell")
    ensures SeriesType("0x0A84") == Some("apollolake")
    ensures GenerationAsWritten("0x0A84") == Some(7)
    ensures Generation("0x0A84") == Some(9)
  {
    LowerOfIds();
    MaskedOfIds();
    Family0a00("0x0a84", "0x0a84");
    Family0a00("0x0a84", "0x0A84");
    ApolloLakeIsGen9();
    HaswellIsGen7();
  }
}
