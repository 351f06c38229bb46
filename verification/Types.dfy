// Values shared by the MQTT modules.
module Types {
  type byte = b: int | 0 <= b < 256
  type u16 = n: int | 0 <= n < 65536

  datatype Option<+T> = None | Some(value: T)

  // The error codes the modelled code can produce; every one but OK is negative in include/mqtt.h.
  datatype Error =
    | OK
    | CONTROL_FORBIDDEN_TYPE
    | CONTROL_INVALID_FLAGS
    | CONNECT_CLIENT_ID_REFUSED
    | CONNECT_NULL_WILL_MESSAGE
    | CONNECT_FORBIDDEN_WILL_QOS
    | CONNACK_FORBIDDEN_FLAGS
    | CONNACK_FORBIDDEN_CODE
    | PUBLISH_FORBIDDEN_QOS
    | SUBSCRIBE_TOO_MANY_TOPICS
    | MALFORMED_RESPONSE
    | UNSUBSCRIBE_TOO_MANY_TOPICS
    | RESPONSE_INVALID_CONTROL_TYPE
    | CONNECT_NOT_CALLED
    | SEND_BUFFER_IS_FULL
    | SOCKET_ERROR
    | MALFORMED_REQUEST
    | RECV_BUFFER_TOO_SMALL
    | ACK_OF_UNKNOWN
    | CONNECTION_REFUSED
    | SUBSCRIBE_FAILED
    | INVALID_REMAINING_LENGTH
    | CLEAN_SESSION_IS_REQUIRED
    | RECONNECTING
    | OVERRUN      // no code of the source: the model stops where the source would read past a packet

  // MQTT control packet types (section 2.2.1 of MQTT 3.1.1).
  const CONNECT := 1
  const CONNACK := 2
  const PUBLISH := 3
  const PUBACK := 4
  const PUBREC := 5
  const PUBREL := 6
  const PUBCOMP := 7
  const SUBSCRIBE := 8
  const SUBACK := 9
  const UNSUBSCRIBE := 10
  const UNSUBACK := 11
  const PINGREQ := 12
  const PINGRESP := 13
  const DISCONNECT := 14

  const MAX_TOPICS := 8
  const MAX_REMAINING_LENGTH := 0x1000_0000
}
