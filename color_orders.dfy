// The colour orders the WS2801 and LPD8806 servers accept (`order_t` in
// src/ws2801_server.c and src/lpd8806_server.c) and the `get_order` choice both make.
module ColorOrders {
  import opened Bytes

  datatype ColorOrder = RGB | GRB | BGR

  /** The three colour bytes of a pixel in the order `order` names. */
  function Channels(order: ColorOrder, p: Pixel): (bs: seq<byte>)
    ensures |bs| == 3
  {
    match order
    case RGB => [p.r, p.g, p.b]
    case GRB => [p.g, p.r, p.b]
    case BGR => [p.b, p.g, p.r]
  }

  /** Reads three colour bytes back in the order `order` names. */
  function Unchannel(order: ColorOrder, bs: seq<byte>): Pixel
    requires |bs| == 3
  {
    match order
    case RGB => Pixel(bs[0], bs[1], bs[2])
    case GRB => Pixel(bs[1], bs[0], bs[2])
    case BGR => Pixel(bs[2], bs[1], bs[0])
  }

  /** Each order is a permutation of the three channels: reading back inverts it. */
  lemma UnchannelChannels(order: ColorOrder, p: Pixel)
    ensures Unchannel(order, Channels(order, p)) == p
  {
  }

  /** `get_order(argc, argv)`: the order named exactly by `argv[3]`, else `default`. */
  function GetOrder(argv: seq<string>, default: ColorOrder): (order: ColorOrder)
    ensures |argv| <= 3 ==> order == default
    ensures |argv| > 3 && argv[3] == "rgb" ==> order == RGB
    ensures |argv| > 3 && argv[3] == "grb" ==> order == GRB
    ensures |argv| > 3 && argv[3] == "bgr" ==> order == BGR
    ensures |argv| > 3 && argv[3] !in {"rgb", "grb", "bgr"} ==> order == default
  {
    if |argv| <= 3 then default
    else if argv[3] == "rgb" then RGB
    else if argv[3] == "grb" then GRB
    else if argv[3] == "bgr" then BGR
    else default
  }
}
