/** The run parameters of the ranking engine with their default values
    (mars/config.py). Only the knobs the modelled code reads are kept. */
module Config {
  import opened Wrappers

  datatype MarsConfig = MarsConfig(
    mu: real,                 // prior mean of the Beta prior
    zPenalty: real,           // LB = MAS - z * SE
    autoGamma: bool,          // gamma from the total-variation distance
    gammaMetaBlend: real,
    gammaMin: real,
    gammaMax: real,
    gammaBase: real,
    gammaSlope: real,
    metaGapPolicy: string,    // "proportional", "uniform" or "encounter"
    kMin: real,
    kLoUser: real,            // K_CONST_BOUNDS
    kHiUser: real,
    rhoTest: real,
    relTolLL: real,
    nMinBtTarget: int,
    btSoftPower: Option<real>, // None: the continuous automatic exponent
    btNearBand: real,
    btUseHarmonicN: bool,
    lambdaRidge: real,
    maxBtIter: nat,
    btTol: real,
    eps: real
  )

  const Default: MarsConfig := MarsConfig(
    0.5, 1.2, false, 0.30, 0.10, 0.60, 0.10, 1.5, "encounter",
    0.10, 0.05, 50.0, 1.0 / 3.0, 0.001,
    5, None, 0.10, true, 1.5, 500, 0.000001, 0.000000000001)
}
