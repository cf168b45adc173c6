/** The card's sample rates and the shape of its USB packets. */
module CardRates {

  datatype SampleRate = Hz44100 | Hz48000 | Hz88200 | Hz96000 | Hz192000 {
    function Hz(): nat {
      match this
      case Hz44100 => 44_100
      case Hz48000 => 48_000
      case Hz88200 => 88_200
      case Hz96000 => 96_000
      case Hz192000 => 192_000
    }
  }

  const MICROFRAMES_PER_SECOND := 8000
  const MAX_PACKET_SIZE := 512
  const PACKETS_PER_TRANSFER := 8
  const TRANSFER_BYTES := PACKETS_PER_TRANSFER * MAX_PACKET_SIZE
}
