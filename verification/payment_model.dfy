/** The payment document as the controllers write it. The payment schema itself
    (app/models/payment-model.js) is not part of this model: only the fields the controllers set appear. */
module PaymentModel {
  import opened Wrappers
  import BookingModel

  datatype PaymentState = Created | Succeeded

  datatype Payment = Payment(
    id: BookingModel.Id,
    booking: BookingModel.Id,
    user: BookingModel.Id,
    amount: Option<int>,
    razorpayOrderId: Option<string>,
    razorpayPaymentId: Option<string>,
    razorpaySignature: Option<string>,
    status: PaymentState)
}
