/** The half-band kernels of filters.rs, in rows as the tables are laid out there. The float
    taps are the decimal initialisers; their narrowing to `f32` is not modelled. */
module Filters {
  import opened MachineInts

  const HB_ROW0: seq<i16> := [-33, 0, 56, 0, -100, 0, 166, 0, -259, 0, 389, 0, -571, 0, 829, 0]
  const HB_ROW1: seq<i16> := [-1220, 0, 1885, 0, -3353, 0, 10389, 16384, 10389, 0, -3353, 0]
  const HB_ROW2: seq<i16> := [1885, 0, -1220, 0, 829, 0, -571, 0, 389, 0, -259, 0, 166, 0]
  const HB_ROW3: seq<i16> := [-100, 0, 56, 0, -33]

  const HB_KERNEL_INT16: seq<i16> := HB_ROW0 + HB_ROW1 + HB_ROW2 + HB_ROW3

  const HB_FLOAT_HALF: seq<real> := [
    -0.00099860627294751, 0.0, 0.001695637278417295, 0.0, -0.003054430179754289, 0.0,
    0.005055504379767936, 0.0, -0.007901319195893647, 0.0, 0.011873357051047719, 0.0,
    -0.017411159379930066, 0.0, 0.025304817427568772, 0.0, -0.037225225204559217, 0.0,
    0.057533286997004301, 0.0, -0.10232746200425935, 0.0
  ]
  const HB_FLOAT_CENTRE: seq<real> := [0.3170344725089474, 0.5, 0.3170344725089474, 0.0]
  const HB_FLOAT_OTHER_HALF: seq<real> := [
    -0.10232746200425935, 0.0, 0.057533286997004301, 0.0, -0.037225225204559217, 0.0,
    0.025304817427568772, 0.0, -0.017411159379930066, 0.0, 0.011873357051047719, 0.0,
    -0.007901319195893647, 0.0, 0.005055504379767936, 0.0, -0.003054430179754289, 0.0,
    0.001695637278417295, 0.0, -0.00099860627294751
  ]

  const HB_KERNEL_FLOAT: seq<real> := HB_FLOAT_HALF + HB_FLOAT_CENTRE + HB_FLOAT_OTHER_HALF
}
